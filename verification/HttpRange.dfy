/** Range requests: what the client writes, what the server reads, and what it decides to send. */
module HttpRange {
  import opened Types
  import opened Text
  import opened Pieces

  const MAX_RANGE_SIZE: U64 := 100 * 1024 * 1024

  const RANGE_PREFIX: string := "range: bytes="

  type Range = (U64, Option<U64>)

  function LowerChar(c: char): char {
    if 'A' <= c <= 'Z' then (c as nat + 32) as char else c
  }

  /** Lower case, as far as the header name can tell: no other letter lowers to one of its own. */
  function Lower(s: string): (t: string)
    ensures |t| == |s|
  {
    seq(|s|, i requires 0 <= i < |s| => LowerChar(s[i]))
  }

  predicate IsRangeLine(line: string) {
    RANGE_PREFIX <= Lower(line)
  }

  /** The part after the first '=', cut at '-': a start, and an end unless it is empty. */
  function ParseSpec(line: string): (range: Option<Range>)
    ensures range.Some? && range.value.1.Some? ==> range.value.0 <= range.value.1.value
  {
    var pieces := Split(line, '=');
    if |pieces| < 2 then None
    else
      var parts := Split(pieces[1], '-');
      match ParseU64(parts[0])
      case None => None
      case Some(start) =>
        if |parts| < 2 || parts[1] == "" then Some((start, None))
        else
          match ParseU64(parts[1])
          case None => None
          case Some(end) => if start > end then None else Some((start, Some(end)))
  }

  lemma LowersTo(c: char, i: nat)
    requires i < 13
    ensures LowerChar(c) == "range: bytes="[i] <==> c == "range: bytes="[i] || c == "RANGE: BYTES="[i]
  {
  }

  /** A range line begins "range: bytes=" in any mixture of cases. */
  lemma RangeLineIff(line: string)
    ensures IsRangeLine(line) <==>
              |line| >= 13 && forall i | 0 <= i < 13 :: line[i] == "range: bytes="[i] || line[i] == "RANGE: BYTES="[i]
  {
    if |line| >= 13 {
      forall i | 0 <= i < 13
        ensures Lower(line)[i] == RANGE_PREFIX[i] <==>
                line[i] == "range: bytes="[i] || line[i] == "RANGE: BYTES="[i]
      {
        LowersTo(line[i], i);
      }
      assert IsRangeLine(line) <==> forall i | 0 <= i < 13 :: Lower(line)[i] == RANGE_PREFIX[i];
    }
  }

  /** The first range line decides, even when it does not parse. */
  function ParseRange(lines: seq<string>): (range: Option<Range>)
    ensures range.Some? && range.value.1.Some? ==> range.value.0 <= range.value.1.value
  {
    if lines == [] then None
    else if IsRangeLine(lines[0]) then ParseSpec(lines[0])
    else ParseRange(lines[1..])
  }

  // ---------- reading back what clients write ----------

  lemma SpecReadsBack(name: string, spec: string)
    requires Lower(name) == RANGE_PREFIX && '=' !in spec
    ensures IsRangeLine(name + spec)
    ensures Split(name + spec, '=') == [name[..12], spec]
  {
    assert Lower(name + spec)[..13] == Lower(name);
    assert forall i | 0 <= i < 13 :: LowerChar(name[i]) == RANGE_PREFIX[i];
    assert LowerChar(name[12]) == '=';
    assert name[12] == '=';
    assert forall i | 0 <= i < 12 :: RANGE_PREFIX[i] != '=';
    assert '=' !in name[..12];
    assert name + spec == name[..12] + ['='] + spec;
    SplitAt(name[..12], '=', spec);
    SplitNone(spec, '=');
  }

  lemma {:induction false} EarlierLinesDoNotMatter(before: seq<string>, line: string, after: seq<string>)
    requires IsRangeLine(line) && forall l <- before :: !IsRangeLine(l)
    ensures ParseRange(before + [line] + after) == ParseSpec(line)
    decreases |before|
  {
    if before != [] {
      assert (before + [line] + after)[1..] == before[1..] + [line] + after;
      EarlierLinesDoNotMatter(before[1..], line, after);
    }
  }

  lemma DecimalHasNoSeparators(n: nat)
    ensures '-' !in Decimal(n) && '=' !in Decimal(n)
  {
  }

  lemma NoEquals(head: string, tail: string)
    requires '=' !in head && '=' !in tail
    ensures '=' !in head + ['-'] + tail
  {
  }

  lemma DashedSpecParses(name: string, start: U64, tail: string)
    requires Lower(name) == RANGE_PREFIX && '-' !in tail && '=' !in tail
    ensures IsRangeLine(name + (Decimal(start) + ['-'] + tail))
    ensures ParseSpec(name + (Decimal(start) + ['-'] + tail)) ==
            if tail == "" then Some((start, None))
            else if ParseU64(tail) == None || start > ParseU64(tail).value then None
            else Some((start, ParseU64(tail)))
  {
    DecimalHasNoSeparators(start);
    NoEquals(Decimal(start), tail);
    SpecReadsBack(name, Decimal(start) + ['-'] + tail);
    SplitAt(Decimal(start), '-', tail);
    SplitNone(tail, '-');
    ParseU64RoundTrip(start);
  }

  /** "bytes=S-E", whatever the case of the header name and wherever it stands. */
  lemma BoundedRangeReadsBack(before: seq<string>, name: string, start: U64, end: U64, after: seq<string>)
    requires Lower(name) == RANGE_PREFIX && start <= end && forall l <- before :: !IsRangeLine(l)
    ensures ParseRange(before + [name + Decimal(start) + "-" + Decimal(end)] + after) == Some((start, Some(end)))
  {
    var line := name + (Decimal(start) + ['-'] + Decimal(end));
    assert name + Decimal(start) + "-" + Decimal(end) == line;
    DecimalHasNoSeparators(end);
    DashedSpecParses(name, start, Decimal(end));
    ParseU64RoundTrip(end);
    EarlierLinesDoNotMatter(before, line, after);
  }

  /** "bytes=S-", as a resuming client writes it. */
  lemma OpenRangeReadsBack(before: seq<string>, name: string, start: U64, after: seq<string>)
    requires Lower(name) == RANGE_PREFIX && forall l <- before :: !IsRangeLine(l)
    ensures ParseRange(before + [name + Decimal(start) + "-"] + after) == Some((start, None))
  {
    var line := name + (Decimal(start) + ['-'] + "");
    assert name + Decimal(start) + "-" == line;
    DashedSpecParses(name, start, "");
    EarlierLinesDoNotMatter(before, line, after);
  }

  // ---------- what else is read ----------

  lemma SpecIsCut(name: string, spec: string, tail: string)
    requires Lower(name) == RANGE_PREFIX && '=' !in spec && (tail == "" || tail[0] == '=')
    ensures |Split(name + spec + tail, '=')| >= 2 && Split(name + spec + tail, '=')[1] == spec
  {
    SpecReadsBack(name, spec);
    if tail == "" {
      assert name + spec + tail == name + spec;
    } else {
      assert forall i | 0 <= i < 13 :: LowerChar(name[i]) == RANGE_PREFIX[i];
      assert LowerChar(name[12]) == '=' && name[12] == '=';
      assert forall i | 0 <= i < 12 :: RANGE_PREFIX[i] != '=';
      assert '=' !in name[..12];
      assert name + spec + tail == name[..12] + ['='] + (spec + ['='] + tail[1..]);
      SplitAt(name[..12], '=', spec + ['='] + tail[1..]);
      SplitAt(spec, '=', tail[1..]);
    }
  }

  /** What a start and an end given as text are read as. */
  function ReadRange(start: string, end: string): Option<Range> {
    match ParseU64(start)
    case None => None
    case Some(n) =>
      if end == "" then Some((n, None))
      else
        match ParseU64(end)
        case None => None
        case Some(m) => if n <= m then Some((n, Some(m))) else None
  }

  /** A start alone is read as an open range, up to a second '='. */
  lemma BareSpecIs(name: string, start: string, tail: string)
    requires Lower(name) == RANGE_PREFIX && '=' !in start && '-' !in start && (tail == "" || tail[0] == '=')
    ensures ParseSpec(name + start + tail) == ReadRange(start, "")
  {
    SpecIsCut(name, start, tail);
    SplitNone(start, '-');
  }

  lemma DashesCut(start: string, end: string, rest: string)
    requires '-' !in start && '-' !in end && (rest == "" || rest[0] == '-')
    ensures var parts := Split(start + ['-'] + (end + rest), '-');
            |parts| >= 2 && parts[0] == start && parts[1] == end
  {
    SplitAt(start, '-', end + rest);
    if rest == "" {
      SplitNone(end, '-');
      assert end + rest == end;
    } else {
      assert end + rest == end + ['-'] + rest[1..];
      SplitAt(end, '-', rest[1..]);
    }
  }

  /** Up to a second '=' and a second '-' only the two numbers matter, and either may fail. */
  lemma DashedSpecIs(name: string, start: string, end: string, rest: string, tail: string)
    requires Lower(name) == RANGE_PREFIX && '-' !in start && '-' !in end && (rest == "" || rest[0] == '-')
    requires '=' !in start + ['-'] + (end + rest) && (tail == "" || tail[0] == '=')
    ensures ParseSpec(name + (start + ['-'] + (end + rest)) + tail) == ReadRange(start, end)
  {
    SpecIsCut(name, start + ['-'] + (end + rest), tail);
    DashesCut(start, end, rest);
  }

  // ---------- the decision ----------

  /** Status and headers: 200, 206 with its Content-Range and Content-Length, or 416. */
  datatype Plan =
    | Whole(length: U64)
    | Partial(start: U64, end: U64, total: U64, length: U64)
    | NotSatisfiable
    | Panic

  function Serve(range: Option<Range>, fileSize: U64, build: Build): Plan {
    match range
    case None => Whole(fileSize)
    case Some((start, end)) =>
      if start >= fileSize then NotSatisfiable
      else
        var last := if end.Some? then end.value else fileSize - 1;
        if start > last then NotSatisfiable
        else
          match AddU64(build, last - start, 1)
          case None => Panic
          case Some(size) =>
            if size > MAX_RANGE_SIZE then NotSatisfiable
            else
              var clamped := if last < fileSize then last else fileSize - 1;
              Partial(start, clamped, fileSize, clamped - start + 1)
  }

  /** The one range whose size does not fit 64 bits. */
  const EVERYTHING: Range := (0, Some(U64_COUNT - 1))

  /**
   * A 206 reply describes a nonempty interval of the file that starts where it was asked to;
   * it stays within the size limit for every range but the whole 64-bit one.
   */
  lemma PartialRepliesAreSound(lines: seq<string>, fileSize: U64, build: Build)
    requires ParseRange(lines).Some? && Serve(ParseRange(lines), fileSize, build).Partial?
    ensures var p := Serve(ParseRange(lines), fileSize, build);
            var (start, end) := ParseRange(lines).value;
            && p.start == start && p.start <= p.end < p.total == fileSize && p.length == p.end - p.start + 1
            && (end.Some? ==> p.end <= end.value)
            && (p.end < fileSize - 1 ==> end == Some(p.end))
            && (p.length > MAX_RANGE_SIZE <==> (start, end) == EVERYTHING && fileSize > MAX_RANGE_SIZE)
  {
  }

  /**
   * Any other range of a file is served exactly when it starts inside the file and asks for at
   * most 100 MiB, then to its own end or the file's; and otherwise it is not satisfiable.
   */
  lemma ServedIff(range: Range, fileSize: U64, build: Build)
    requires range != EVERYTHING && (range.1.Some? ==> range.0 <= range.1.value)
    ensures var asked := if range.1.Some? then range.1.value else fileSize - 1;
            var end := if asked < fileSize then asked else fileSize - 1;
            Serve(Some(range), fileSize, build) ==
            if range.0 < fileSize && asked - range.0 + 1 <= 104_857_600
            then Partial(range.0, end, fileSize, end - range.0 + 1) else NotSatisfiable
  {
  }

  /** The whole 64-bit range stops a debug build and escapes the limit in a release build. */
  lemma EverythingOverflows(fileSize: U64, build: Build)
    requires fileSize > 0
    ensures Serve(Some(EVERYTHING), fileSize, build) ==
            if build.DebugBuild? then Panic else Partial(0, fileSize - 1, fileSize, fileSize)
  {
  }

  /** The headers announce the rest of the file to a resume exactly when no more than the limit remains. */
  lemma ResumeIsServedIff(
      before: seq<string>, name: string, start: U64, after: seq<string>, fileSize: U64, build: Build)
    requires Lower(name) == RANGE_PREFIX && forall l <- before :: !IsRangeLine(l)
    ensures Serve(ParseRange(before + [name + Decimal(start) + "-"] + after), fileSize, build) ==
            if start < fileSize <= start + MAX_RANGE_SIZE
            then Partial(start, fileSize - 1, fileSize, fileSize - start) else NotSatisfiable
  {
    OpenRangeReadsBack(before, name, start, after);
  }

  /** The headers announce just the requested bytes of a file exactly when they fit the limit. */
  lemma ChunkIsServedIff(
      before: seq<string>, name: string, start: U64, end: U64, after: seq<string>, fileSize: U64, build: Build)
    requires Lower(name) == RANGE_PREFIX && forall l <- before :: !IsRangeLine(l)
    requires start <= end < fileSize
    ensures Serve(ParseRange(before + [name + Decimal(start) + "-" + Decimal(end)] + after), fileSize, build) ==
            if end - start < MAX_RANGE_SIZE then Partial(start, end, fileSize, end - start + 1) else NotSatisfiable
  {
    BoundedRangeReadsBack(before, name, start, end, after);
  }

  // ---------- the body ----------

  /**
   * What a client makes of a reply: behind its headers the server writes the file from its
   * first byte, whatever the range, and the client takes as many bytes as were announced.
   */
  function Received(p: Plan, file: Content): Content
    requires p.Whole? ==> p.length <= |file|
    requires p.Partial? ==> p.length <= |file|
  {
    match p
    case Whole(length) => file[..length]
    case Partial(_, _, _, length) => file[..length]
    case _ => []
  }

  /** So the body is the announced range of every file exactly when the range is from the start. */
  lemma BodyFollowsHeadersIffFromStart(lines: seq<string>, fileSize: U64, build: Build)
    requires ParseRange(lines).Some? && Serve(ParseRange(lines), fileSize, build).Partial?
    ensures var p := Serve(ParseRange(lines), fileSize, build);
            p.start <= p.end < fileSize && p.length <= fileSize
            && ((forall file: Content | |file| == fileSize :: Received(p, file) == file[p.start..p.end + 1]) <==>
                  p.start == 0)
  {
    PartialRepliesAreSound(lines, fileSize, build);
    var p := Serve(ParseRange(lines), fileSize, build);
    if p.start > 0 {
      var file: Content := seq(fileSize, i => if i == 0 then 1 else 0);
      assert Received(p, file)[0] == 1 && file[p.start..p.end + 1][0] == 0;
    }
  }

  /** A resume that is served at all continues every file correctly only from its first byte. */
  lemma ResumeIsRightIffFromStart(
      before: seq<string>, name: string, start: U64, after: seq<string>, fileSize: U64, build: Build)
    requires Lower(name) == RANGE_PREFIX && forall l <- before :: !IsRangeLine(l)
    requires start < fileSize <= start + MAX_RANGE_SIZE
    ensures var p := Serve(ParseRange(before + [name + Decimal(start) + "-"] + after), fileSize, build);
            p.Partial? && p.length <= fileSize
            && ((forall file: Content | |file| == fileSize :: file[..start] + Received(p, file) == file) <==>
                  start == 0)
  {
    ResumeIsServedIff(before, name, start, after, fileSize, build);
    var p := Partial(start, fileSize - 1, fileSize, fileSize - start);
    if start > 0 {
      var file: Content := seq(fileSize, i => if i == 0 then 1 else 0);
      assert (file[..start] + Received(p, file))[start] == 1 && file[start] == 0;
    } else {
      forall file: Content | |file| == fileSize ensures file[..start] + Received(p, file) == file {
      }
    }
  }

  // ---------- requests for the whole file ----------

  lemma {:induction false} NoRangeLine(lines: seq<string>)
    requires forall l <- lines :: !IsRangeLine(l)
    ensures ParseRange(lines) == None
  {
    if lines != [] {
      NoRangeLine(lines[1..]);
    }
  }

  /** A request without a range line is answered with the whole file and its size. */
  lemma PlainRequestGetsWholeFile(lines: seq<string>, file: Content, build: Build)
    requires |file| < U64_COUNT && forall l <- lines :: !IsRangeLine(l)
    ensures var p := Serve(ParseRange(lines), |file|, build); p == Whole(|file|) && Received(p, file) == file
  {
    NoRangeLine(lines);
  }

  /** And so is one whose first range line does not parse, whatever range lines follow. */
  lemma UnreadableRangeGetsWholeFile(
      before: seq<string>, line: string, after: seq<string>, file: Content, build: Build)
    requires |file| < U64_COUNT && forall l <- before :: !IsRangeLine(l)
    requires IsRangeLine(line) && ParseSpec(line) == None
    ensures var p := Serve(ParseRange(before + [line] + after), |file|, build);
            p == Whole(|file|) && Received(p, file) == file
  {
    EarlierLinesDoNotMatter(before, line, after);
  }
}
