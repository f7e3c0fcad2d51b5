/** Splitting one large download into equal segments and merging them (the video downloader). */
module SegmentedDownload {
  import opened Types
  import opened Pieces

  const TWO_TO_53: nat := 0x20_0000_0000_0000

  /** The number of segments is a positive u32. */
  type Segments = n: nat | 0 < n < 0x1_0000_0000 witness 1

  function CeilDiv(n: nat, d: nat): nat
    requires d > 0
  {
    (n + d - 1) / d
  }

  function Abs(x: real): real {
    if x < 0.0 then -x else x
  }

  predicate AtLeastAsNear(x: real, y: real, k: nat) {
    Abs(y - x) <= Abs(k as real - x)
  }

  /** The whole numbers that a double holds: up to 53 bits and then zeros. */
  predicate IsDouble(n: nat) {
    n <= TWO_TO_53 || (n % 2 == 0 && IsDouble(n / 2))
  }

  /**
   * y is the double nearest to x: no whole number that is a double is nearer, and the relative
   * error is at most one half in the last place.
   */
  ghost predicate NearestDouble(x: real, y: real) {
    && (forall k: nat | IsDouble(k) :: AtLeastAsNear(x, y, k))
    && Abs(y - x) * TWO_TO_53 as real <= Abs(x)
  }

  /** A whole number that is a double is rounded to itself. */
  lemma DoublesAreExact(n: nat, y: real)
    requires IsDouble(n)
    ensures NearestDouble(n as real, y) <==> y == n as real
  {
    if NearestDouble(n as real, y) {
      assert AtLeastAsNear(n as real, y, n);
    }
  }

  lemma {:induction false} PowersAreDoubles()
    ensures IsDouble(U64_COUNT)
  {
    assert U64_COUNT == 2048 * TWO_TO_53;
    assert IsDouble(2 * TWO_TO_53);
    assert IsDouble(4 * TWO_TO_53);
    assert IsDouble(8 * TWO_TO_53);
    assert IsDouble(16 * TWO_TO_53);
    assert IsDouble(32 * TWO_TO_53);
    assert IsDouble(64 * TWO_TO_53);
    assert IsDouble(128 * TWO_TO_53);
    assert IsDouble(256 * TWO_TO_53);
    assert IsDouble(512 * TWO_TO_53);
    assert IsDouble(1024 * TWO_TO_53);
  }

  function Ceil(y: real): int {
    -((-y).Floor)
  }

  lemma AtLeast(a: nat, b: nat)
    requires b > 0
    ensures a * b >= a
  {
  }

  lemma CeilDivIs(total: nat, segments: nat)
    requires segments > 0 && total > 0
    ensures var c := CeilDiv(total, segments); 0 < c <= total && (c - 1) * segments < total <= c * segments
  {
    var c := CeilDiv(total, segments);
    assert c * segments <= total + segments - 1 < c * segments + segments;
    AtLeast(c - 1, segments);
  }

  lemma SmallerFactor(a: real, b: real, s: real)
    requires s > 0.0 && a * s < b * s
    ensures a < b
  {
  }

  lemma ScaleUp(a: real, b: real, s: real)
    requires s > 0.0 && a <= b
    ensures a * s <= b * s
  {
  }

  /** An error below one part in 2^53 cannot carry the quotient down past a whole number. */
  lemma StaysAbove(total: real, s: real, q: real, y: real, below: real)
    requires s > 0.0 && q * s == total && below * s <= total - 1.0
    requires total < TWO_TO_53 as real && (q - y) * TWO_TO_53 as real <= q
    ensures below < y
  {
    ScaleUp((q - y) * TWO_TO_53 as real, q, s);
    assert (q - y) * TWO_TO_53 as real * s == ((q - y) * s) * TWO_TO_53 as real;
    assert (q - y) * s == q * s - y * s;
    SmallerFactor(below, y, s);
  }

  lemma NotLarger(a: real, b: real, s: real)
    requires s > 0.0 && a * s <= b * s
    ensures a <= b
  {
    if a > b { ScaleUp(b, a, s); SmallerFactor(a - b, 0.0, s); }
  }

  lemma CastProduct(a: int, b: int)
    ensures (a * b) as real == a as real * b as real
  {
  }

  lemma QuotientBounds(total: nat, segments: nat, q: real)
    requires total > 0 && segments > 0 && q * segments as real == total as real
    ensures var c, s := CeilDiv(total, segments), segments as real;
            0.0 <= q <= c as real && (c as real - 1.0) * s <= total as real - 1.0
  {
    var c, s := CeilDiv(total, segments), segments as real;
    CeilDivIs(total, segments);
    CastProduct(c, segments);
    CastProduct(c - 1, segments);
    NotLarger(q, c as real, s);
    NotLarger(0.0, q, s);
    assert (c - 1) as real == c as real - 1.0;
  }

  lemma CeilIs(y: real, c: int)
    requires c as real - 1.0 < y <= c as real
    ensures Ceil(y) == c
  {
  }

  lemma CancelDivision(a: real, b: real)
    requires b > 0.0
    ensures a / b * b == a
  {
  }

  lemma DoubleBounds(total: real, s: real, q: real, y: real, c: nat)
    requires s > 0.0 && q * s == total && total < TWO_TO_53 as real && c <= TWO_TO_53
    requires 0.0 <= q <= c as real && (c as real - 1.0) * s <= total - 1.0
    requires NearestDouble(q, y)
    ensures c as real - 1.0 < y <= c as real
  {
    assert AtLeastAsNear(q, y, c);
    StaysAbove(total, s, q, y, c as real - 1.0);
  }

  /** The double quotient rounded up is the exact quotient rounded up. */
  lemma CeilOfDoubleIsExact(total: nat, segments: nat, quotient: real)
    requires 0 < total < TWO_TO_53 && segments > 0
    requires NearestDouble(total as real / segments as real, quotient)
    ensures Ceil(quotient) == CeilDiv(total, segments)
  {
    var q := total as real / segments as real;
    CancelDivision(total as real, segments as real);
    CeilDivIs(total, segments);
    QuotientBounds(total, segments, q);
    DoubleBounds(total as real, segments as real, q, quotient, CeilDiv(total, segments));
    CeilIs(quotient, CeilDiv(total, segments));
  }

  // ---------- sizes beyond 2^53 ----------

  /** total_size as f64, divided by segments as f64. */
  ghost predicate Quotient(total: U64, segments: Segments, rounded: real, quotient: real) {
    NearestDouble(total as real, rounded) && NearestDouble(rounded / segments as real, quotient)
  }

  /** A cast to u64 saturates. */
  function ChunkSize(quotient: real): U64 {
    var c := Ceil(quotient);
    if c < 0 then 0 else if c < U64_COUNT then c else U64_COUNT - 1
  }

  lemma RoundedTotal(total: U64, rounded: real)
    requires total > 0 && NearestDouble(total as real, rounded)
    ensures 0.0 < rounded <= U64_COUNT as real && rounded <= total as real + 2048.0
    ensures total as real - 2048.0 <= rounded
    ensures total < TWO_TO_53 ==> rounded == total as real
  {
    PowersAreDoubles();
    assert AtLeastAsNear(total as real, rounded, U64_COUNT);
    if total < TWO_TO_53 {
      assert AtLeastAsNear(total as real, rounded, total);
    }
  }

  /** For sizes below 2^53 the chunk size is the exact quotient rounded up. */
  lemma SmallChunkSize(total: U64, segments: Segments, rounded: real, quotient: real)
    requires 0 < total < TWO_TO_53 && Quotient(total, segments, rounded, quotient)
    ensures ChunkSize(quotient) == CeilDiv(total, segments)
  {
    RoundedTotal(total, rounded);
    CeilOfDoubleIsExact(total, segments, quotient);
    CeilDivIs(total, segments);
  }

  lemma QuotientRange(q: real, s: real, product: real)
    requires s >= 1.0 && q * s == product > 0.0
    ensures 0.0 < q <= product
  {
    if q <= 0.0 {
      ScaleUp(q, 0.0, s);
    }
    ScaleUp(1.0, s, q);
  }

  lemma ErrorBound(x: real, y: real)
    requires 0.0 < x <= U64_COUNT as real && Abs(y - x) * TWO_TO_53 as real <= x
    ensures 0.0 < y <= x + 2048.0
  {
  }

  lemma CastIsNear(y: real, limit: real)
    requires 0.0 < y <= limit
    ensures 0 < ChunkSize(y) && ChunkSize(y) as real < limit + 1.0
  {
  }

  lemma RoundsToCeiling(q: real, y: real)
    requires 0.0 < q <= TWO_TO_53 as real && NearestDouble(q, y)
    ensures y <= Ceil(q) as real && ChunkSize(y) as real < q + 1.0
  {
    var m: nat := Ceil(q);
    assert m <= TWO_TO_53;
    assert AtLeastAsNear(q, y, m);
    assert Ceil(y) <= m;
  }

  /** A quotient is rounded up by less than one, after an error of at most 2^-53 of it. */
  lemma ChunkIsNear(q: real, quotient: real)
    requires 0.0 < q <= U64_COUNT as real && NearestDouble(q, quotient)
    ensures 0 < ChunkSize(quotient) && ChunkSize(quotient) as real < q + 2049.0
    ensures q <= TWO_TO_53 as real ==> ChunkSize(quotient) as real < q + 1.0
  {
    ErrorBound(q, quotient);
    CastIsNear(quotient, q + 2048.0);
    if q <= TWO_TO_53 as real {
      RoundsToCeiling(q, quotient);
    }
  }

  lemma SmallerOfScaled(a: real, b: real, s: real)
    requires s > 0.0 && a < b
    ensures a * s < b * s
  {
    if a * s >= b * s {
      NotLarger(b, a, s);
    }
  }

  /** What multiplying out a bound on the chunk size by a margin means for the last segment. */
  lemma LastStartBound(p: nat, c: nat, q: real, margin: real)
    requires c as real < q + margin && p > 0
    ensures (p * c) as real < q * (p + 1) as real - q + p as real * margin
  {
    CastProduct(p, c);
    ScaleUp(c as real, q + margin, p as real);
    SmallerOfScaled(c as real, q + margin, p as real);
    assert q * (p + 1) as real == q * p as real + q;
    assert (q + margin) * p as real == q * p as real + margin * p as real;
  }

  lemma Below(i: nat, n: nat, chunk: nat)
    requires i <= n
    ensures i * chunk <= n * chunk
  {
  }

  lemma Square(p: nat, c: nat, bound: nat)
    requires p <= bound && c <= bound
    ensures p * c <= bound * bound
  {
    Below(p, bound, c);
    Below(c, bound, bound);
  }

  lemma BelowProduct(segments: Segments, c: nat, q: real, margin: real, product: real)
    requires segments > 1 && c as real < q + margin && q * segments as real == product
    ensures ((segments - 1) * c) as real < product - q + (segments - 1) as real * margin
  {
    LastStartBound(segments - 1, c, q, margin);
    assert (segments - 1 + 1) as real == segments as real;
  }

  lemma FewSegments(q: real, segments: Segments, rounded: real)
    requires q * segments as real == rounded && rounded <= U64_COUNT as real && q > TWO_TO_53 as real
    ensures segments < 2048
  {
    if segments >= 2048 {
      ScaleUp(2048.0, segments as real, q);
    }
  }

  lemma LastStartOfMany(segments: Segments, c: nat, q: real, product: real)
    requires segments > 1 && c as real < q + 1.0 && q * segments as real == product <= U64_COUNT as real
    ensures (segments - 1) * c < U64_COUNT
  {
    var p := segments - 1;
    if c <= p {
      Square(p, c, 0xFFFF_FFFE);
    } else {
      LastStartBound(p, c, q, 1.0);
      assert (p + 1) as real == segments as real;
    }
  }

  lemma LastStartOfFew(segments: Segments, c: nat, q: real, product: real)
    requires 1 < segments < 2048 && c as real < q + 2049.0 && q * segments as real == product <= U64_COUNT as real
    requires q > TWO_TO_53 as real
    ensures (segments - 1) * c < U64_COUNT
  {
    LastStartBound(segments - 1, c, q, 2049.0);
    assert (segments - 1 + 1) as real == segments as real;
  }

  lemma TakeQuotient(segments: Segments, rounded: real, quotient: real) returns (q: real)
    requires NearestDouble(rounded / segments as real, quotient)
    ensures q * segments as real == rounded && NearestDouble(q, quotient)
  {
    q := rounded / segments as real;
    CancelDivision(rounded, segments as real);
  }

  /** The exact quotient of the rounded size, of which the chunk size is a rounding. */
  lemma ExactQuotient(total: U64, segments: Segments, rounded: real, quotient: real) returns (q: real)
    requires total > 0 && Quotient(total, segments, rounded, quotient)
    ensures q * segments as real == rounded && 0.0 < q <= rounded <= U64_COUNT as real
    ensures rounded <= total as real + 2048.0 && total as real - 2048.0 <= rounded
    ensures NearestDouble(q, quotient)
  {
    RoundedTotal(total, rounded);
    q := TakeQuotient(segments, rounded, quotient);
    QuotientRange(q, segments as real, rounded);
  }

  /** Where the last segment begins fits 64 bits, for every size and number of segments. */
  lemma LastStartFits(total: U64, segments: Segments, rounded: real, quotient: real)
    requires total > 0 && Quotient(total, segments, rounded, quotient)
    ensures 0 < ChunkSize(quotient) && (segments - 1) * ChunkSize(quotient) < U64_COUNT
  {
    var q := ExactQuotient(total, segments, rounded, quotient);
    ChunkIsNear(q, quotient);
    if segments > 1 {
      if q <= TWO_TO_53 as real {
        LastStartOfMany(segments, ChunkSize(quotient), q, rounded);
      } else {
        FewSegments(q, segments, rounded);
        LastStartOfFew(segments, ChunkSize(quotient), q, rounded);
      }
    }
  }

  // ---------- segments ----------

  /** First and last byte asked for by a segment. */
  function Segment(total: nat, segments: nat, chunk: nat, i: nat): (int, int) {
    (i * chunk, if i == segments - 1 then total - 1 else (i + 1) * chunk - 1)
  }

  predicate Inside(range: (int, int), total: nat) {
    0 <= range.0 <= range.1 < total
  }

  /** Every segment is a nonempty interval of the file exactly when the last one begins inside it. */
  lemma SegmentsAreInsideIff(total: nat, segments: nat, chunk: nat)
    requires total > 0 && segments > 0 && chunk > 0
    ensures (forall i: nat | i < segments :: Inside(Segment(total, segments, chunk, i), total)) <==>
            (segments - 1) * chunk < total
  {
    var last: nat := segments - 1;
    assert Segment(total, segments, chunk, last) == (last * chunk, total - 1);
    if last * chunk < total {
      forall i: nat | i < segments ensures Inside(Segment(total, segments, chunk, i), total) {
        Below(i, last, chunk);
        if i < last { Below(i + 1, last, chunk); }
      }
    }
  }

  /** A square root of the size is segments enough. */
  lemma FewSegmentsFit(total: nat, segments: nat)
    requires segments > 0 && (segments - 1) * (segments - 1) < total
    ensures (segments - 1) * CeilDiv(total, segments) < total
  {
    CeilDivIs(total, segments);
    var p, c := segments - 1, CeilDiv(total, segments);
    if c <= p {
      Below(c, p, p);
    } else {
      assert (c - 1) * (p + 1) == p * c + (c - 1 - p);
    }
  }

  lemma LargeQuotient(q: real, s: real, product: real)
    requires 0.0 < s <= 3239.0 && q * s == product >= TWO_TO_53 as real - 2048.0
    ensures q > 10_000_000.0
  {
    SmallerFactor(10_000_000.0, q, s);
  }

  lemma BelowTotal(start: nat, bound: real, total: nat)
    requires start as real < bound <= total as real
    ensures start < total
  {
  }

  lemma LastStartOfLarge(segments: Segments, c: nat, q: real, total: nat, product: real)
    requires 1 < segments <= 3239 && c as real < q + 2049.0 && total >= TWO_TO_53
    requires q * segments as real == product
    requires total as real - 2048.0 <= product <= total as real + 2048.0
    ensures (segments - 1) * c < total
  {
    LargeQuotient(q, segments as real, product);
    BelowProduct(segments, c, q, 2049.0, product);
    BelowTotal((segments - 1) * c, product - q + (segments - 1) as real * 2049.0, total);
  }

  lemma LargeSizesAllowSegments(total: U64, segments: Segments, rounded: real, quotient: real)
    requires total >= TWO_TO_53 && 1 < segments <= 3239 && Quotient(total, segments, rounded, quotient)
    ensures (segments - 1) * ChunkSize(quotient) < total
  {
    var q := ExactQuotient(total, segments, rounded, quotient);
    ChunkIsNear(q, quotient);
    LastStartOfLarge(segments, ChunkSize(quotient), q, total, rounded);
  }

  lemma SmallSizesAllowSegments(total: nat, segments: Segments)
    requires total > 10 * 1024 * 1024 && segments <= 3239
    ensures (segments - 1) * CeilDiv(total, segments) < total
  {
    Square(segments - 1, segments - 1, 3238);
    FewSegmentsFit(total, segments);
  }

  /** Above the gate, up to 3239 segments all begin inside the file, whatever its size. */
  lemma GateAllowsSegments(total: U64, segments: Segments, rounded: real, quotient: real)
    requires total > 10 * 1024 * 1024 && segments <= 3239 && Quotient(total, segments, rounded, quotient)
    ensures (segments - 1) * ChunkSize(quotient) < total
  {
    if total < TWO_TO_53 {
      SmallChunkSize(total, segments, rounded, quotient);
      SmallSizesAllowSegments(total, segments);
    } else if segments > 1 {
      LargeSizesAllowSegments(total, segments, rounded, quotient);
    }
  }

  function CutPoint(total: nat, segments: nat, chunk: nat, i: nat): nat {
    if i == segments then total else i * chunk
  }

  /** Where each segment begins, and the end of the file. */
  function CutPoints(total: nat, segments: nat, chunk: nat): seq<nat> {
    seq(segments + 1, i requires 0 <= i <= segments => CutPoint(total, segments, chunk, i))
  }

  lemma SegmentIsPiece(total: nat, segments: nat, chunk: nat, i: nat)
    requires segments > 0 && total > 0 && chunk > 0 && (segments - 1) * chunk < total && i < segments
    ensures Segment(total, segments, chunk, i) ==
            (CutPoint(total, segments, chunk, i), CutPoint(total, segments, chunk, i + 1) - 1)
    ensures 0 <= CutPoint(total, segments, chunk, i) < CutPoint(total, segments, chunk, i + 1) <= total
  {
    SegmentsAreInsideIff(total, segments, chunk);
    assert Inside(Segment(total, segments, chunk, i), total);
  }

  /** The segments follow one another from the first byte of the file to its last. */
  lemma SegmentsPartition(segments: nat, chunk: nat, file: Content)
    requires segments > 0 && |file| > 0 && chunk > 0 && (segments - 1) * chunk < |file|
    ensures FitCuts(CutPoints(|file|, segments, chunk), file)
  {
    var cuts := CutPoints(|file|, segments, chunk);
    assert cuts[0] == 0;
    forall i | 0 < i < |cuts| ensures cuts[i - 1] <= cuts[i] <= |file| {
      SegmentIsPiece(|file|, segments, chunk, i - 1);
    }
  }

  // ---------- the download ----------

  /** What a segment's task left in its part file after its retries, and whether it succeeded. */
  datatype Fetched = Fetched(content: Content, ok: bool)

  function Part(total: nat, segments: nat, chunk: nat, fetch: (nat, int, int) -> Fetched, i: nat): Fetched {
    var (first, last) := Segment(total, segments, chunk, i);
    fetch(i, first, last)
  }

  function Parts(total: nat, segments: nat, chunk: nat, fetch: (nat, int, int) -> Fetched): seq<Fetched> {
    seq(segments, i requires 0 <= i < segments => Part(total, segments, chunk, fetch, i))
  }

  function Contents(parts: seq<Fetched>): seq<Content> {
    seq(|parts|, i requires 0 <= i < |parts| => parts[i].content)
  }

  lemma StartFits(segments: Segments, chunk: U64, i: nat)
    requires i < segments && (segments - 1) * chunk < U64_COUNT
    ensures 0 <= i * chunk < U64_COUNT
  {
    Below(i, segments - 1, chunk);
  }

  /**
   * None is the error when no segment succeeded; otherwise the merged output is reported as a
   * success. rounded is total_size as a double, quotient that divided by the number of
   * segments; no product of the two loops overflows 64 bits.
   */
  method ParallelDownload(
      total: U64, segments: Segments, rounded: real, quotient: real, fetch: (nat, int, int) -> Fetched)
      returns (output: Option<Content>)
    requires total > 0 && Quotient(total, segments, rounded, quotient)
    ensures var parts := Parts(total, segments, ChunkSize(quotient), fetch);
            output == if exists p <- parts :: p.ok then Some(Concat(Contents(parts))) else None
  {
    LastStartFits(total, segments, rounded, quotient);
    var chunk := ChunkSize(quotient);
    ghost var parts := Parts(total, segments, chunk, fetch);

    var partFiles: seq<Content> := seq(segments, _ => []);
    var successes := 0;
    for i := 0 to segments
      invariant |partFiles| == segments && partFiles[..i] == Contents(parts)[..i]
      invariant successes >= 0 && (successes == 0 <==> forall k | 0 <= k < i :: !parts[k].ok)
    {
      StartFits(segments, chunk, i);
      var first: U64 := i * chunk;
      var last: U64 := total - 1;
      if i != segments - 1 {
        StartFits(segments, chunk, i + 1);
        var next: U64 := (i + 1) * chunk;
        last := next - 1;
      }
      var fetched := fetch(i, first, last);
      assert Segment(total, segments, chunk, i) == (first, last);
      assert parts[i] == fetched;
      partFiles := partFiles[i := fetched.content];
      if fetched.ok {
        successes := successes + 1;
      }
    }
    if successes == 0 {
      return None;
    }
    assert partFiles == Contents(parts);
    var merged: Content := [];
    for i := 0 to segments
      invariant merged == Concat(partFiles[..i])
    {
      merged := merged + partFiles[i];
      assert partFiles[..i + 1] == partFiles[..i] + [partFiles[i]];
      ConcatSnoc(partFiles[..i], partFiles[i]);
    }
    assert partFiles[..segments] == partFiles;
    output := Some(merged);
  }

  /**
   * When the last segment begins inside the file, and transfers deliver at worst a beginning
   * of what they were asked for, merging gives the file exactly when every segment is complete.
   */
  lemma MergeIsTheFileIffAllComplete(
      file: Content, segments: nat, chunk: nat, fetch: (nat, int, int) -> Fetched)
    requires segments > 0 && |file| > 0 && chunk > 0 && (segments - 1) * chunk < |file|
    requires forall i: nat, first: nat, last: nat | first <= last < |file| ::
               fetch(i, first, last).content <= file[first..last + 1]
    ensures Concat(Contents(Parts(|file|, segments, chunk, fetch))) == file <==>
            forall i: nat | i < segments ::
              var (first, last) := Segment(|file|, segments, chunk, i);
              0 <= first <= last < |file| && fetch(i, first, last).content == file[first..last + 1]
  {
    var contents := Contents(Parts(|file|, segments, chunk, fetch));
    var cuts := CutPoints(|file|, segments, chunk);
    SegmentsPartition(segments, chunk, file);
    forall i: nat | i < segments
      ensures var (first, last) := Segment(|file|, segments, chunk, i);
              && 0 <= first <= last < |file| && Piece(file, cuts, i) == file[first..last + 1]
              && contents[i] == fetch(i, first, last).content && contents[i] <= Piece(file, cuts, i)
    {
      SegmentIsPiece(|file|, segments, chunk, i);
    }
    MergedFileIffComplete(contents, file, cuts);
  }
}
