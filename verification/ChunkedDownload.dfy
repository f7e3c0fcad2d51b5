/** Fetching a file from a peer in chunks, each over its own connection. */
module ChunkedDownload {
  import opened Types
  import opened Pieces
  import opened Text
  import opened HttpRange

  /** u64::div_ceil. */
  function DivCeil(n: nat, d: nat): nat
    requires d > 0
  {
    n / d + if n % d > 0 then 1 else 0
  }

  lemma DivCeilIs(total: nat, size: nat)
    requires total > 0 && size > 0
    ensures var n := DivCeil(total, size); n > 0 && (n - 1) * size < total <= n * size
  {
    assert total == total / size * size + total % size;
  }

  lemma Monotone(i: nat, j: nat, size: nat)
    requires i <= j
    ensures i * size <= j * size
  {
  }

  function CutPoint(total: nat, size: nat, i: nat): nat {
    if i * size < total then i * size else total
  }

  lemma ChunkBegins(total: nat, size: nat, i: nat)
    requires total > 0 && size > 0 && i < DivCeil(total, size)
    ensures CutPoint(total, size, i) == i * size < CutPoint(total, size, i + 1) <= total
    ensures CutPoint(total, size, i + 1) - i * size <= size
    ensures (i + 1) * size == i * size + size
  {
    DivCeilIs(total, size);
    Monotone(i, DivCeil(total, size) - 1, size);
  }

  /** min(start + chunk_size - 1, total_size - 1) in 64 bits. */
  function LastByte(total: U64, size: U64, start: U64, build: Build): Option<U64>
    requires total > 0
  {
    match AddU64(build, start, size)
    case None => None
    case Some(end) =>
      var last: U64 := if end == 0 then U64_COUNT - 1 else end - 1;
      Some(if last < total - 1 then last else total - 1)
  }

  /** First and last byte asked for by a connection. */
  function Chunk(total: U64, size: U64, i: nat, build: Build): Option<(U64, U64)>
    requires size > 0 && i < DivCeil(total, size)
  {
    ChunkBegins(total, size, i);
    match LastByte(total, size, i * size, build)
    case None => None
    case Some(last) => Some((i * size, last))
  }

  /** The end of a chunk fits 64 bits, or just wraps around to nothing left over. */
  predicate EndFits(size: nat, i: nat, build: Build) {
    (i + 1) * size < U64_COUNT || (build.ReleaseBuild? && (i + 1) * size == U64_COUNT)
  }

  /**
   * A connection asks for its piece of the file exactly when the end of the chunk fits. If it
   * does not, a debug build stops and a release build asks for a range that ends before it begins.
   */
  lemma ChunkIsPieceIff(total: U64, size: U64, i: nat, build: Build)
    requires size > 0 && i < DivCeil(total, size)
    ensures Chunk(total, size, i, build) == Some((CutPoint(total, size, i), CutPoint(total, size, i + 1) - 1)) <==>
            EndFits(size, i, build)
    ensures !EndFits(size, i, build) ==>
              match Chunk(total, size, i, build)
              case None => build.DebugBuild?
              case Some((first, last)) => build.ReleaseBuild? && last < first
  {
    ChunkBegins(total, size, i);
  }

  /** What a connection came to: a failure leaves a beginning of its range, or nothing at all. */
  datatype Transfer = Delivered(content: Content) | Broken(content: Content) | Refused

  type Fetch = (int, int) -> Transfer

  function Left(t: Transfer): Content {
    if t.Refused? then [] else t.content
  }

  /** Below twice the chunk size one connection is used; a chunk size of zero cannot be divided by. */
  datatype Outcome = SingleConnection | Aborted | Merged(output: Content, downloaded: nat)

  /** The chunk files in the order they are merged; a missing one counts for nothing. */
  function ChunkFiles(files: map<nat, Content>, n: nat): seq<Content> {
    seq(n, i requires 0 <= i < n => if i in files then files[i] else [])
  }

  /** The chunk files, and the bytes of the connections that succeeded. */
  datatype Arrived = Arrived(files: map<nat, Content>, downloaded: nat)

  function Arrive(before: Arrived, i: nat, t: Transfer): Arrived {
    match t
    case Delivered(content) => Arrived(before.files[i := content], before.downloaded + |content|)
    case Broken(content) => before.(files := before.files[i := content])
    case Refused => before
  }

  /** After this many connections, over the files already there; None when the arithmetic stops. */
  function Fetched(
      stale: map<nat, Content>, total: U64, size: U64, fetch: Fetch, count: nat, build: Build): Option<Arrived>
    requires size > 0 && count <= DivCeil(total, size)
  {
    if count == 0 then Some(Arrived(stale, 0))
    else
      match Fetched(stale, total, size, fetch, count - 1, build)
      case None => None
      case Some(before) =>
        match Chunk(total, size, count - 1, build)
        case None => None
        case Some((first, last)) => Some(Arrive(before, count - 1, fetch(first, last)))
  }

  function Min(a: nat, b: nat): nat {
    if a < b then a else b
  }

  function Download(
      total: U64, size: U64, connections: nat, stale: map<nat, Content>, fetch: Fetch, build: Build): Outcome
  {
    match AddU64(build, size, size)
    case None => Aborted
    case Some(doubled) =>
      if total <= doubled then SingleConnection
      else if size == 0 then Aborted
      else
        var chunks := DivCeil(total, size);
        match Fetched(stale, total, size, fetch, Min(chunks, connections), build)
        case None => Aborted
        case Some(arrived) => Merged(Concat(ChunkFiles(arrived.files, chunks)), arrived.downloaded)
  }

  method Merge(files: map<nat, Content>, chunks: nat) returns (output: Content)
    ensures output == Concat(ChunkFiles(files, chunks))
  {
    ghost var all := ChunkFiles(files, chunks);
    output := [];
    for k := 0 to chunks
      invariant output == Concat(all[..k])
    {
      assert all[..k + 1] == all[..k] + [all[k]];
      ConcatSnoc(all[..k], all[k]);
      if k in files {
        output := output + files[k];
      } else {
        assert output + [] == output;
      }
    }
    assert all[..chunks] == all;
  }

  lemma {:induction false} StopsForGood(
      stale: map<nat, Content>, total: U64, size: U64, fetch: Fetch, early: nat, count: nat, build: Build)
    requires size > 0 && early <= count <= DivCeil(total, size)
    requires Fetched(stale, total, size, fetch, early, build) == None
    ensures Fetched(stale, total, size, fetch, count, build) == None
    decreases count
  {
    if early < count {
      StopsForGood(stale, total, size, fetch, early, count - 1, build);
    }
  }

  class ChunkedDownloader {
    const chunkSize: U64

    constructor (chunkSize: U64)
      ensures this.chunkSize == chunkSize
    {
      this.chunkSize := chunkSize;
    }

    /** One connection for each of the first chunks; their files, and the bytes they reported. */
    method FetchChunks(
        total: U64, count: nat, stale: map<nat, Content>, fetch: Fetch, build: Build)
        returns (arrived: Option<Arrived>)
      requires chunkSize > 0 && count <= DivCeil(total, chunkSize)
      ensures arrived == Fetched(stale, total, chunkSize, fetch, count, build)
    {
      var files: map<nat, Content> := stale;
      var downloaded: nat := 0;
      for i := 0 to count
        invariant Fetched(stale, total, chunkSize, fetch, i, build) == Some(Arrived(files, downloaded))
      {
        ChunkBegins(total, chunkSize, i);
        var first := i * chunkSize;
        var last := LastByte(total, chunkSize, first, build);
        if last == None {
          StopsForGood(stale, total, chunkSize, fetch, i + 1, count, build);
          return None;
        }
        var transfer := fetch(first, last.value);
        ghost var next := Arrive(Arrived(files, downloaded), i, transfer);
        if !transfer.Refused? {
          files := files[i := transfer.content];
        }
        if transfer.Delivered? {
          downloaded := downloaded + |transfer.content|;
        }
        assert Arrived(files, downloaded) == next;
      }
      arrived := Some(Arrived(files, downloaded));
    }

    /** stale holds the chunk files an earlier attempt left in the temporary directory. */
    method DownloadParallel(total: U64, connections: nat, stale: map<nat, Content>, fetch: Fetch, build: Build)
        returns (outcome: Outcome)
      ensures outcome == Download(total, chunkSize, connections, stale, fetch, build)
    {
      var doubled := AddU64(build, chunkSize, chunkSize);
      if doubled == None {
        return Aborted;
      }
      if total <= doubled.value {
        return SingleConnection;
      }
      if chunkSize == 0 {
        return Aborted;
      }
      var chunks := DivCeil(total, chunkSize);
      var arrived := FetchChunks(total, Min(chunks, connections), stale, fetch, build);
      if arrived == None {
        return Aborted;
      }
      var output := Merge(arrived.value.files, chunks);
      outcome := Merged(output, arrived.value.downloaded);
    }
  }

  // ---------- what arrives ----------

  /** Where each chunk begins, and the end of the file. */
  function CutPoints(total: nat, size: nat): seq<nat>
    requires size > 0
  {
    seq(DivCeil(total, size) + 1, i requires 0 <= i <= DivCeil(total, size) => CutPoint(total, size, i))
  }

  lemma CutPointsRise(file: Content, size: nat)
    requires |file| > 0 && size > 0
    ensures var cuts := CutPoints(|file|, size);
            FitCuts(cuts, file) && Rising(cuts) && cuts[|cuts| - 1] == |file|
  {
    DivCeilIs(|file|, size);
    forall i | 0 < i <= DivCeil(|file|, size) ensures CutPoint(|file|, size, i - 1) < CutPoint(|file|, size, i) {
      ChunkBegins(|file|, size, i - 1);
    }
  }

  predicate AsksForPiece(total: U64, size: U64, cuts: seq<nat>, i: nat, build: Build)
    requires size > 0
  {
    && i < DivCeil(total, size) && i + 1 < |cuts| && cuts[i + 1] > 0
    && Chunk(total, size, i, build) == Some((cuts[i], cuts[i + 1] - 1))
  }

  /** The first connections ask for the pieces between the cuts. */
  predicate AsksForPieces(total: U64, size: U64, cuts: seq<nat>, count: nat, build: Build)
    requires size > 0
  {
    && count <= DivCeil(total, size) && count < |cuts|
    && forall i: nat | i < count :: AsksForPiece(total, size, cuts, i, build)
  }

  /** Through the last of this many connections, every chunk's end fits. */
  predicate EndsFit(size: nat, count: nat, build: Build) {
    count == 0 || EndFits(size, count - 1, build)
  }

  lemma EarlierEndsFit(size: nat, count: nat, i: nat, build: Build)
    requires i < count && EndsFit(size, count, build)
    ensures EndFits(size, i, build)
  {
    Monotone(i + 1, count, size);
  }

  lemma AsksForPieceIf(total: U64, size: U64, i: nat, build: Build)
    requires size > 0 && i < DivCeil(total, size) && EndFits(size, i, build)
    ensures AsksForPiece(total, size, CutPoints(total, size), i, build)
  {
    ChunkBegins(total, size, i);
    ChunkIsPieceIff(total, size, i, build);
  }

  lemma AsksForPiecesIf(total: U64, size: U64, count: nat, build: Build)
    requires size > 0 && count <= DivCeil(total, size) && EndsFit(size, count, build)
    ensures AsksForPieces(total, size, CutPoints(total, size), count, build)
  {
    forall i: nat | i < count ensures AsksForPiece(total, size, CutPoints(total, size), i, build) {
      EarlierEndsFit(size, count, i, build);
      AsksForPieceIf(total, size, i, build);
    }
  }

  /** Every connection leaves a beginning of what it asked for, if it asked for a range. */
  ghost predicate LeavesBeginnings(fetch: Fetch, file: Content) {
    forall first: nat, last: nat | first <= last < |file| :: Left(fetch(first, last)) <= file[first..last + 1]
  }

  ghost predicate Delivers(fetch: Fetch, file: Content) {
    forall first: nat, last: nat | first <= last < |file| :: fetch(first, last) == Delivered(file[first..last + 1])
  }

  /** The transfer of the piece between two cuts. */
  function PieceTransfer(cuts: seq<nat>, fetch: Fetch, i: nat): Transfer
    requires i + 1 < |cuts|
  {
    var end: int := cuts[i + 1];
    fetch(cuts[i], end - 1)
  }

  ghost predicate LeftOver(arrived: Arrived, cuts: seq<nat>, fetch: Fetch, count: nat) {
    && count < |cuts|
    && (forall i: nat | i in arrived.files :: i < count)
    && (forall i: nat | i < count ::
          (if i in arrived.files then arrived.files[i] else []) == Left(PieceTransfer(cuts, fetch, i)))
  }

  /** What is reported is at most what is there, and all of it while no connection broke off. */
  predicate ReportedOf(arrived: Arrived, count: nat, unbroken: bool) {
    var there := |Concat(ChunkFiles(arrived.files, count))|;
    arrived.downloaded <= there && (unbroken ==> arrived.downloaded == there)
  }

  predicate Unbroken(cuts: seq<nat>, fetch: Fetch, count: nat)
    requires count < |cuts|
  {
    forall i: nat | i < count :: !PieceTransfer(cuts, fetch, i).Broken?
  }

  lemma OneMoreReported(before: Arrived, i: nat, t: Transfer, unbroken: bool)
    requires (forall k: nat | k in before.files :: k < i) && ReportedOf(before, i, unbroken)
    ensures ReportedOf(Arrive(before, i, t), i + 1, unbroken && !t.Broken?)
  {
    assert ChunkFiles(Arrive(before, i, t).files, i + 1) == ChunkFiles(before.files, i) + [Left(t)];
    ConcatSnoc(ChunkFiles(before.files, i), Left(t));
  }

  lemma OneMoreLeftOver(before: Arrived, cuts: seq<nat>, fetch: Fetch, i: nat)
    requires LeftOver(before, cuts, fetch, i) && i + 1 < |cuts|
    ensures LeftOver(Arrive(before, i, PieceTransfer(cuts, fetch, i)), cuts, fetch, i + 1)
  {
  }

  lemma OneMoreArrives(
      total: U64, size: U64, cuts: seq<nat>, stale: map<nat, Content>, fetch: Fetch, i: nat, build: Build,
      before: Arrived)
    requires size > 0 && AsksForPiece(total, size, cuts, i, build)
    requires Fetched(stale, total, size, fetch, i, build) == Some(before)
    ensures Fetched(stale, total, size, fetch, i + 1, build) == Some(Arrive(before, i, PieceTransfer(cuts, fetch, i)))
  {
  }

  lemma OneMoreUnbroken(cuts: seq<nat>, fetch: Fetch, i: nat)
    requires i + 1 < |cuts|
    ensures Unbroken(cuts, fetch, i + 1) <==> Unbroken(cuts, fetch, i) && !PieceTransfer(cuts, fetch, i).Broken?
  {
  }

  /** From an empty directory, the chunk files are what the connections left. */
  lemma {:induction false} FilesAreLeftOver(
      total: U64, size: U64, cuts: seq<nat>, fetch: Fetch, count: nat, build: Build) returns (arrived: Arrived)
    requires size > 0 && AsksForPieces(total, size, cuts, count, build)
    ensures Fetched(map[], total, size, fetch, count, build) == Some(arrived)
    ensures LeftOver(arrived, cuts, fetch, count) && ReportedOf(arrived, count, Unbroken(cuts, fetch, count))
  {
    if count == 0 {
      arrived := Arrived(map[], 0);
    } else {
      var i := count - 1;
      var before := FilesAreLeftOver(total, size, cuts, fetch, i, build);
      var transfer := PieceTransfer(cuts, fetch, i);
      OneMoreArrives(total, size, cuts, map[], fetch, i, build, before);
      OneMoreLeftOver(before, cuts, fetch, i);
      OneMoreReported(before, i, transfer, Unbroken(cuts, fetch, i));
      OneMoreUnbroken(cuts, fetch, i);
      arrived := Arrive(before, i, transfer);
    }
  }

  /** A chunk whose end does not fit stops a debug build. */
  lemma {:induction false} DebugBuildStops(
      total: U64, size: U64, stale: map<nat, Content>, fetch: Fetch, count: nat, build: Build)
    requires build.DebugBuild? && size > 0 && count <= DivCeil(total, size) && !EndsFit(size, count, build)
    ensures Fetched(stale, total, size, fetch, count, build) == None
  {
    ChunkIsPieceIff(total, size, count - 1, build);
  }

  lemma {:induction false} ConcatPadding(parts: seq<Content>, n: nat)
    requires n <= |parts| && forall i | n <= i < |parts| :: parts[i] == []
    ensures Concat(parts) == Concat(parts[..n])
    decreases |parts|
  {
    if n == |parts| {
      assert parts[..n] == parts;
    } else {
      var front := parts[..|parts| - 1];
      ConcatPadding(front, n);
      assert front[..n] == parts[..n];
      assert Concat(front) + [] == Concat(front);
    }
  }

  lemma MissingFilesAreNothing(files: map<nat, Content>, count: nat, chunks: nat)
    requires count <= chunks && forall i: nat | i in files :: i < count
    ensures Concat(ChunkFiles(files, chunks)) == Concat(ChunkFiles(files, count))
  {
    ConcatPadding(ChunkFiles(files, chunks), count);
    assert ChunkFiles(files, chunks)[..count] == ChunkFiles(files, count);
  }

  lemma DownloadMerges(
      total: U64, size: U64, connections: nat, stale: map<nat, Content>, fetch: Fetch, build: Build, arrived: Arrived)
    requires size > 0 && 2 * size < total
    requires Fetched(stale, total, size, fetch, Min(DivCeil(total, size), connections), build) == Some(arrived)
    ensures Download(total, size, connections, stale, fetch, build) ==
            Merged(Concat(ChunkFiles(arrived.files, DivCeil(total, size))), arrived.downloaded)
  {
  }

  lemma ArrivedIsLeftOver(total: U64, size: U64, count: nat, fetch: Fetch, build: Build) returns (arrived: Arrived)
    requires size > 0 && count <= DivCeil(total, size) && EndsFit(size, count, build)
    ensures Fetched(map[], total, size, fetch, count, build) == Some(arrived)
    ensures LeftOver(arrived, CutPoints(total, size), fetch, count)
    ensures ReportedOf(arrived, count, Unbroken(CutPoints(total, size), fetch, count))
  {
    AsksForPiecesIf(total, size, count, build);
    arrived := FilesAreLeftOver(total, size, CutPoints(total, size), fetch, count, build);
  }

  /** While every end fits, the outcome is made of what the connections left. */
  lemma OutcomeIsLeftOver(total: U64, size: U64, connections: nat, fetch: Fetch, build: Build)
      returns (arrived: Arrived)
    requires size > 0 && 2 * size < total
    requires EndsFit(size, Min(DivCeil(total, size), connections), build)
    ensures LeftOver(arrived, CutPoints(total, size), fetch, Min(DivCeil(total, size), connections))
    ensures var count := Min(DivCeil(total, size), connections);
            ReportedOf(arrived, count, Unbroken(CutPoints(total, size), fetch, count))
    ensures Concat(ChunkFiles(arrived.files, DivCeil(total, size))) ==
            Concat(ChunkFiles(arrived.files, Min(DivCeil(total, size), connections)))
    ensures Download(total, size, connections, map[], fetch, build) ==
            Merged(Concat(ChunkFiles(arrived.files, DivCeil(total, size))), arrived.downloaded)
  {
    arrived := ArrivedIsLeftOver(total, size, Min(DivCeil(total, size), connections), fetch, build);
    DownloadMerges(total, size, connections, map[], fetch, build, arrived);
    MissingFilesAreNothing(arrived.files, Min(DivCeil(total, size), connections), DivCeil(total, size));
  }

  // ---------- what failed connections leave ----------

  /** The piece between two cuts arrived whole. */
  predicate Complete(file: Content, cuts: seq<nat>, fetch: Fetch, i: nat)
    requires FitCuts(cuts, file) && i + 1 < |cuts|
  {
    Left(PieceTransfer(cuts, fetch, i)) == Piece(file, cuts, i)
  }

  /** Each piece had a connection that left all of it. */
  predicate AllComplete(file: Content, cuts: seq<nat>, fetch: Fetch, connections: nat)
    requires FitCuts(cuts, file)
  {
    forall i: nat | i + 1 < |cuts| :: i < connections && Complete(file, cuts, fetch, i)
  }

  lemma LeftOverIsPartly(arrived: Arrived, file: Content, cuts: seq<nat>, fetch: Fetch, count: nat)
    requires FitCuts(cuts, file) && Rising(cuts) && LeavesBeginnings(fetch, file)
    requires LeftOver(arrived, cuts, fetch, count)
    ensures Partly(ChunkFiles(arrived.files, |cuts| - 1), file, cuts)
  {
    var parts := ChunkFiles(arrived.files, |cuts| - 1);
    forall i: nat | i < |parts| ensures parts[i] <= Piece(file, cuts, i) {
      assert cuts[i] < cuts[i + 1] <= |file|;
      if i < count {
        assert parts[i] == Left(PieceTransfer(cuts, fetch, i));
      }
    }
  }

  lemma PartIsWholeIff(arrived: Arrived, file: Content, cuts: seq<nat>, fetch: Fetch, count: nat, i: nat)
    requires FitCuts(cuts, file) && Rising(cuts) && LeftOver(arrived, cuts, fetch, count) && i + 1 < |cuts|
    ensures ChunkFiles(arrived.files, |cuts| - 1)[i] == Piece(file, cuts, i) <==>
            i < count && Complete(file, cuts, fetch, i)
  {
    var parts := ChunkFiles(arrived.files, |cuts| - 1);
    if i < count {
      assert parts[i] == Left(PieceTransfer(cuts, fetch, i));
    } else {
      assert cuts[i] < cuts[i + 1] && parts[i] == [];
    }
  }

  lemma LeftOverMergesIff(arrived: Arrived, file: Content, cuts: seq<nat>, fetch: Fetch, count: nat)
    requires FitCuts(cuts, file) && Rising(cuts) && LeavesBeginnings(fetch, file)
    requires LeftOver(arrived, cuts, fetch, count) && cuts[|cuts| - 1] == |file|
    ensures Concat(ChunkFiles(arrived.files, |cuts| - 1)) == file <==> AllComplete(file, cuts, fetch, count)
  {
    LeftOverIsPartly(arrived, file, cuts, fetch, count);
    var parts := ChunkFiles(arrived.files, |cuts| - 1);
    MergedFileIffComplete(parts, file, cuts);
    if Concat(parts) == file {
      forall i: nat | i + 1 < |cuts| ensures i < count && Complete(file, cuts, fetch, i) {
        PartIsWholeIff(arrived, file, cuts, fetch, count, i);
      }
    }
    if AllComplete(file, cuts, fetch, count) {
      forall i: nat | i < |parts| ensures parts[i] == Piece(file, cuts, i) {
        assert Complete(file, cuts, fetch, i);
        PartIsWholeIff(arrived, file, cuts, fetch, count, i);
      }
    }
  }

  /** Connections beyond the number of chunks make no difference. */
  lemma EnoughConnections(file: Content, cuts: seq<nat>, fetch: Fetch, connections: nat)
    requires FitCuts(cuts, file)
    ensures AllComplete(file, cuts, fetch, Min(|cuts| - 1, connections)) <==>
            AllComplete(file, cuts, fetch, connections)
  {
    var count := Min(|cuts| - 1, connections);
    if AllComplete(file, cuts, fetch, count) {
      forall i: nat | i + 1 < |cuts| ensures i < connections && Complete(file, cuts, fetch, i) {
        assert Complete(file, cuts, fetch, i);
      }
    }
    if AllComplete(file, cuts, fetch, connections) {
      forall i: nat | i + 1 < |cuts| ensures i < count && Complete(file, cuts, fetch, i) {
        assert Complete(file, cuts, fetch, i);
      }
    }
  }

  /**
   * Whatever connections failed, and whatever they reported, the merged output is the file
   * exactly when every chunk had a connection that left all of it.
   */
  lemma MergeIsTheFileIffAllComplete(file: Content, size: U64, connections: nat, fetch: Fetch, build: Build)
    requires |file| < U64_COUNT && size > 0 && 2 * size < |file| && LeavesBeginnings(fetch, file)
    requires EndsFit(size, Min(DivCeil(|file|, size), connections), build)
    ensures var outcome := Download(|file|, size, connections, map[], fetch, build);
            var cuts := CutPoints(|file|, size);
            && outcome.Merged? && FitCuts(cuts, file)
            && (outcome.output == file <==> AllComplete(file, cuts, fetch, connections))
  {
    var cuts := CutPoints(|file|, size);
    CutPointsRise(file, size);
    var arrived := OutcomeIsLeftOver(|file|, size, connections, fetch, build);
    LeftOverMergesIff(arrived, file, cuts, fetch, Min(|cuts| - 1, connections));
    EnoughConnections(file, cuts, fetch, connections);
  }

  lemma FullLengthIsTheFile(arrived: Arrived, file: Content, cuts: seq<nat>, fetch: Fetch, count: nat)
    requires FitCuts(cuts, file) && Rising(cuts) && LeavesBeginnings(fetch, file)
    requires LeftOver(arrived, cuts, fetch, count) && cuts[|cuts| - 1] == |file|
    ensures var output := Concat(ChunkFiles(arrived.files, |cuts| - 1));
            |output| <= |file| && (|output| == |file| ==> output == file)
  {
    var parts := ChunkFiles(arrived.files, |cuts| - 1);
    LeftOverIsPartly(arrived, file, cuts, fetch, count);
    PartsAreNoLonger(parts, file, cuts);
    if |Concat(parts)| == |file| {
      FullLengthIsComplete(parts, file, cuts);
      assert file[..|file|] == file;
    }
  }

  /** A caller told of as many bytes as the file has has the file. */
  lemma FullCountIsTheFile(file: Content, size: U64, connections: nat, fetch: Fetch, build: Build)
    requires |file| < U64_COUNT && size > 0 && 2 * size < |file| && LeavesBeginnings(fetch, file)
    requires EndsFit(size, Min(DivCeil(|file|, size), connections), build)
    ensures var outcome := Download(|file|, size, connections, map[], fetch, build);
            outcome.Merged? && outcome.downloaded <= |outcome.output| <= |file|
            && (outcome.downloaded == |file| ==> outcome.output == file)
  {
    var cuts := CutPoints(|file|, size);
    CutPointsRise(file, size);
    var arrived := OutcomeIsLeftOver(|file|, size, connections, fetch, build);
    FullLengthIsTheFile(arrived, file, cuts, fetch, Min(|cuts| - 1, connections));
  }

  // ---------- when every connection delivers ----------

  lemma CountedBytes(total: nat, size: nat, connections: nat)
    requires total > 0 && size > 0
    ensures CutPoint(total, size, Min(DivCeil(total, size), connections)) == Min(connections * size, total)
  {
    var chunks := DivCeil(total, size);
    DivCeilIs(total, size);
    if connections < chunks {
      Monotone(connections, chunks - 1, size);
    } else {
      Monotone(chunks, connections, size);
    }
  }

  /** The chunks that were fetched adjoin from the first byte of the file. */
  lemma DeliveredPrefix(arrived: Arrived, file: Content, cuts: seq<nat>, fetch: Fetch, count: nat)
    requires FitCuts(cuts, file) && Rising(cuts) && Delivers(fetch, file) && LeftOver(arrived, cuts, fetch, count)
    ensures Concat(ChunkFiles(arrived.files, count)) == file[..cuts[count]] && Unbroken(cuts, fetch, count)
  {
    var parts := ChunkFiles(arrived.files, count);
    forall i: nat | i < count
      ensures parts[i] == Piece(file, cuts, i) && PieceTransfer(cuts, fetch, i).Delivered?
    {
      assert cuts[i] < cuts[i + 1] <= |file|;
      assert parts[i] == Left(PieceTransfer(cuts, fetch, i));
    }
    MergedIffComplete(parts, file, cuts);
  }

  /**
   * Starting from an empty directory with every connection delivering, the output is the
   * beginning of the file that the connections could fetch, and the reported total its length;
   * only where the end of a chunk does not fit, a debug build stops.
   */
  lemma OutputIsAPrefix(file: Content, size: U64, connections: nat, fetch: Fetch, build: Build)
    requires |file| < U64_COUNT && size > 0 && 2 * size < |file| && Delivers(fetch, file)
    ensures var n := Min(connections * size, |file|);
            var outcome := Download(|file|, size, connections, map[], fetch, build);
            if EndsFit(size, Min(DivCeil(|file|, size), connections), build) then outcome == Merged(file[..n], n)
            else build.DebugBuild? ==> outcome == Aborted
  {
    var cuts := CutPoints(|file|, size);
    var count := Min(|cuts| - 1, connections);
    if EndsFit(size, count, build) {
      CutPointsRise(file, size);
      var arrived := OutcomeIsLeftOver(|file|, size, connections, fetch, build);
      DeliveredPrefix(arrived, file, cuts, fetch, count);
      CountedBytes(|file|, size, connections);
    } else if build.DebugBuild? {
      DebugBuildStops(|file|, size, map[], fetch, count, build);
    }
  }

  /**
   * The whole file arrives exactly when there is a connection for every chunk and the end of
   * the last chunk fits; what a release build gets for a reversed range is left open.
   */
  lemma WholeFileIff(file: Content, size: U64, connections: nat, fetch: Fetch, build: Build)
    requires |file| < U64_COUNT && size > 0 && 2 * size < |file| && Delivers(fetch, file)
    requires build.DebugBuild? || EndsFit(size, Min(DivCeil(|file|, size), connections), build)
    ensures Download(|file|, size, connections, map[], fetch, build) == Merged(file, |file|) <==>
            connections >= DivCeil(|file|, size) && EndsFit(size, DivCeil(|file|, size), build)
  {
    OutputIsAPrefix(file, size, connections, fetch, build);
    var chunks := DivCeil(|file|, size);
    DivCeilIs(|file|, size);
    if connections < chunks {
      Monotone(connections, chunks - 1, size);
      assert |file[..connections * size]| < |file|;
    } else {
      Monotone(chunks, connections, size);
      assert file[..|file|] == file;
    }
  }

  // ---------- which way is taken, and what was there before ----------

  /** One connection is used exactly up to twice the chunk size; beyond that only arithmetic aborts. */
  lemma SingleConnectionIff(
      total: U64, size: U64, connections: nat, stale: map<nat, Content>, fetch: Fetch, build: Build)
    ensures var outcome := Download(total, size, connections, stale, fetch, build);
            if 2 * size < U64_COUNT then
              && (outcome.SingleConnection? <==> total <= 2 * size)
              && (size == 0 && total > 0 ==> outcome.Aborted?)
            else if build.DebugBuild? then outcome.Aborted?
            else outcome.SingleConnection? <==> total <= 2 * size - U64_COUNT
  {
  }

  function FileAt(files: map<nat, Content>, i: nat): Content {
    if i in files then files[i] else []
  }

  /** What is merged for a chunk: what its connection left, or else what was there before. */
  function Found(stale: map<nat, Content>, cuts: seq<nat>, fetch: Fetch, count: nat, i: nat): Content
    requires i + 1 < |cuts|
  {
    if i < count && !PieceTransfer(cuts, fetch, i).Refused? then PieceTransfer(cuts, fetch, i).content
    else FileAt(stale, i)
  }

  /** The bytes of the connections that succeeded, whether or not others left any. */
  function DeliveredBytes(cuts: seq<nat>, fetch: Fetch, count: nat): nat
    requires count < |cuts|
  {
    if count == 0 then 0
    else
      DeliveredBytes(cuts, fetch, count - 1)
      + match PieceTransfer(cuts, fetch, count - 1)
        case Delivered(content) => |content|
        case Broken(_) => 0
        case Refused => 0
  }

  ghost predicate OverStale(
      arrived: Arrived, stale: map<nat, Content>, cuts: seq<nat>, fetch: Fetch, count: nat)
  {
    forall i: nat | i + 1 < |cuts| :: FileAt(arrived.files, i) == Found(stale, cuts, fetch, count, i)
  }

  lemma OneMoreOverStale(before: Arrived, stale: map<nat, Content>, cuts: seq<nat>, fetch: Fetch, i: nat)
    requires OverStale(before, stale, cuts, fetch, i) && i + 1 < |cuts|
    ensures OverStale(Arrive(before, i, PieceTransfer(cuts, fetch, i)), stale, cuts, fetch, i + 1)
  {
    var after := Arrive(before, i, PieceTransfer(cuts, fetch, i));
    forall k: nat | k + 1 < |cuts| ensures FileAt(after.files, k) == Found(stale, cuts, fetch, i + 1, k) {
      assert FileAt(before.files, k) == Found(stale, cuts, fetch, i, k);
    }
  }

  lemma {:induction false} FilesOverStale(
      total: U64, size: U64, cuts: seq<nat>, stale: map<nat, Content>, fetch: Fetch, count: nat, build: Build)
      returns (arrived: Arrived)
    requires size > 0 && AsksForPieces(total, size, cuts, count, build)
    ensures Fetched(stale, total, size, fetch, count, build) == Some(arrived)
    ensures OverStale(arrived, stale, cuts, fetch, count)
    ensures arrived.downloaded == DeliveredBytes(cuts, fetch, count)
  {
    if count == 0 {
      arrived := Arrived(stale, 0);
    } else {
      var i := count - 1;
      var before := FilesOverStale(total, size, cuts, stale, fetch, i, build);
      assert AsksForPiece(total, size, cuts, i, build);
      OneMoreArrives(total, size, cuts, stale, fetch, i, build, before);
      OneMoreOverStale(before, stale, cuts, fetch, i);
      arrived := Arrive(before, i, PieceTransfer(cuts, fetch, i));
    }
  }

  /** The chunks in the order they are merged. */
  function AllFound(stale: map<nat, Content>, cuts: seq<nat>, fetch: Fetch, count: nat): seq<Content>
    requires |cuts| > 0
  {
    seq(|cuts| - 1, i requires 0 <= i < |cuts| - 1 => Found(stale, cuts, fetch, count, i))
  }

  lemma ChunkFilesAreFound(arrived: Arrived, stale: map<nat, Content>, cuts: seq<nat>, fetch: Fetch, count: nat)
    requires |cuts| > 0 && OverStale(arrived, stale, cuts, fetch, count)
    ensures ChunkFiles(arrived.files, |cuts| - 1) == AllFound(stale, cuts, fetch, count)
  {
    forall i: nat | i < |cuts| - 1
      ensures ChunkFiles(arrived.files, |cuts| - 1)[i] == AllFound(stale, cuts, fetch, count)[i]
    {
      assert FileAt(arrived.files, i) == Found(stale, cuts, fetch, count, i);
    }
  }

  /** Connections beyond the number of chunks find nothing more. */
  lemma FoundByEnough(stale: map<nat, Content>, cuts: seq<nat>, fetch: Fetch, connections: nat)
    requires |cuts| > 0
    ensures AllFound(stale, cuts, fetch, Min(|cuts| - 1, connections)) == AllFound(stale, cuts, fetch, connections)
  {
  }

  /** Whatever was in the directory and whatever the connections did, this is merged and reported. */
  lemma OutputIsFound(
      total: U64, size: U64, connections: nat, stale: map<nat, Content>, fetch: Fetch, build: Build)
    requires size > 0 && 2 * size < total
    requires EndsFit(size, Min(DivCeil(total, size), connections), build)
    ensures var outcome := Download(total, size, connections, stale, fetch, build);
            && outcome.Merged?
            && outcome.output == Concat(AllFound(stale, CutPoints(total, size), fetch, connections))
            && outcome.downloaded ==
               DeliveredBytes(CutPoints(total, size), fetch, Min(DivCeil(total, size), connections))
  {
    var count := Min(DivCeil(total, size), connections);
    AsksForPiecesIf(total, size, count, build);
    var arrived := FilesOverStale(total, size, CutPoints(total, size), stale, fetch, count, build);
    DownloadMerges(total, size, connections, stale, fetch, build, arrived);
    ChunkFilesAreFound(arrived, stale, CutPoints(total, size), fetch, count);
    FoundByEnough(stale, CutPoints(total, size), fetch, connections);
  }

  lemma {:induction false} ConcatParts(parts: seq<Content>, more: seq<Content>)
    ensures Concat(parts + more) == Concat(parts) + Concat(more)
    decreases |more|
  {
    if more == [] {
      assert parts + more == parts;
    } else {
      assert (parts + more)[..|parts + more| - 1] == parts + more[..|more| - 1];
      ConcatParts(parts, more[..|more| - 1]);
    }
  }

  /** The files of n chunks from a certain one on, as they were before. */
  function StaleFrom(stale: map<nat, Content>, from: nat, n: nat): seq<Content> {
    seq(n, i requires 0 <= i < n => FileAt(stale, from + i))
  }

  lemma FetchedAreFound(file: Content, stale: map<nat, Content>, cuts: seq<nat>, fetch: Fetch, count: nat)
    requires FitCuts(cuts, file) && Rising(cuts) && Delivers(fetch, file) && count < |cuts|
    ensures Concat(AllFound(stale, cuts, fetch, count)[..count]) == file[..cuts[count]]
  {
    var parts := AllFound(stale, cuts, fetch, count)[..count];
    forall i: nat | i < count ensures parts[i] == Piece(file, cuts, i) {
      assert cuts[i] < cuts[i + 1] <= |file|;
      assert PieceTransfer(cuts, fetch, i) == Delivered(file[cuts[i]..cuts[i + 1]]);
    }
    MergedIffComplete(parts, file, cuts);
  }

  lemma FoundWhenDelivered(file: Content, stale: map<nat, Content>, cuts: seq<nat>, fetch: Fetch, count: nat)
    requires FitCuts(cuts, file) && Rising(cuts) && Delivers(fetch, file) && count < |cuts|
    ensures Concat(AllFound(stale, cuts, fetch, count)) ==
            file[..cuts[count]] + Concat(StaleFrom(stale, count, |cuts| - 1 - count))
  {
    var found := AllFound(stale, cuts, fetch, count);
    FetchedAreFound(file, stale, cuts, fetch, count);
    assert found == found[..count] + found[count..];
    ConcatParts(found[..count], found[count..]);
    assert found[count..] == StaleFrom(stale, count, |cuts| - 1 - count);
  }

  /**
   * With every connection delivering, what an earlier attempt left for the chunks that have no
   * connection is appended to the beginning that was fetched; for the others it does not matter.
   */
  lemma StaleChunksAreAppended(
      file: Content, size: U64, connections: nat, stale: map<nat, Content>, fetch: Fetch, build: Build)
    requires |file| < U64_COUNT && size > 0 && 2 * size < |file| && Delivers(fetch, file)
    requires EndsFit(size, Min(DivCeil(|file|, size), connections), build)
    ensures var count := Min(DivCeil(|file|, size), connections);
            var outcome := Download(|file|, size, connections, stale, fetch, build);
            && outcome.Merged?
            && outcome.output == file[..Min(connections * size, |file|)]
                                 + Concat(StaleFrom(stale, count, DivCeil(|file|, size) - count))
  {
    var cuts := CutPoints(|file|, size);
    CutPointsRise(file, size);
    OutputIsFound(|file|, size, connections, stale, fetch, build);
    FoundByEnough(stale, cuts, fetch, connections);
    FoundWhenDelivered(file, stale, cuts, fetch, Min(|cuts| - 1, connections));
    CountedBytes(|file|, size, connections);
  }

  // ---------- chunks and the peer's own server ----------

  /** The peer's headers announce exactly the range that was asked for. */
  predicate Announces(
      before: seq<string>, name: string, after: seq<string>, first: U64, last: U64, total: U64, build: Build)
  {
    first <= last < total
    && Serve(ParseRange(before + [name + Decimal(first) + "-" + Decimal(last)] + after), total, build)
       == Partial(first, last, total, last - first + 1)
  }

  lemma AnnouncesIff(
      before: seq<string>, name: string, after: seq<string>, first: U64, last: U64, total: U64, build: Build)
    requires Lower(name) == RANGE_PREFIX && forall l <- before :: !IsRangeLine(l)
    ensures Announces(before, name, after, first, last, total, build) <==>
            first <= last < total && last - first < MAX_RANGE_SIZE
  {
    if first <= last < total {
      ChunkIsServedIff(before, name, first, last, after, total, build);
    }
  }

  predicate AnnouncesChunk(
      before: seq<string>, name: string, after: seq<string>, total: U64, size: U64, i: nat, build: Build)
    requires size > 0 && i < DivCeil(total, size)
  {
    match Chunk(total, size, i, build)
    case None => false
    case Some((first, last)) => Announces(before, name, after, first, last, total, build)
  }

  lemma ChunkIsAnnouncedIff(
      before: seq<string>, name: string, after: seq<string>, total: U64, size: U64, i: nat, build: Build)
    requires Lower(name) == RANGE_PREFIX && forall l <- before :: !IsRangeLine(l)
    requires size > 0 && i < DivCeil(total, size)
    ensures AnnouncesChunk(before, name, after, total, size, i, build) <==>
            EndFits(size, i, build) && CutPoint(total, size, i + 1) - i * size <= MAX_RANGE_SIZE
  {
    ChunkBegins(total, size, i);
    ChunkIsPieceIff(total, size, i, build);
    var chunk := Chunk(total, size, i, build);
    if chunk.Some? {
      AnnouncesIff(before, name, after, chunk.value.0, chunk.value.1, total, build);
    }
  }

  /**
   * The peer's own server answers every chunk request with headers for exactly that chunk if
   * and only if a chunk is no larger than the limit on ranges and the last chunk's end fits.
   */
  lemma PeerAnnouncesChunksIff(
      before: seq<string>, name: string, after: seq<string>, total: U64, size: U64, build: Build)
    requires Lower(name) == RANGE_PREFIX && forall l <- before :: !IsRangeLine(l)
    requires size > 0 && 2 * size < total
    ensures (forall i: nat | i < DivCeil(total, size) :: AnnouncesChunk(before, name, after, total, size, i, build))
            <==> size <= MAX_RANGE_SIZE && EndsFit(size, DivCeil(total, size), build)
  {
    var chunks := DivCeil(total, size);
    DivCeilIs(total, size);
    forall i: nat | i < chunks
      ensures AnnouncesChunk(before, name, after, total, size, i, build) <==>
              EndFits(size, i, build) && CutPoint(total, size, i + 1) - i * size <= MAX_RANGE_SIZE
      ensures EndsFit(size, chunks, build) ==> EndFits(size, i, build)
      ensures CutPoint(total, size, i + 1) - i * size <= size
    {
      ChunkIsAnnouncedIff(before, name, after, total, size, i, build);
      ChunkBegins(total, size, i);
      Monotone(i + 1, chunks, size);
    }
    assert CutPoint(total, size, 1) - 0 * size == size;
  }
}
