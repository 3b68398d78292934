/** Chunk planning: where an original text is cut, and what each chunk records about lines. */
module Chunker {
  import opened Bytes
  import opened Lines
  import opened Utf8
  import opened ChunkTable

  datatype ChunkerOptions = ChunkerOptions(target: nat, max: nat) {
    predicate Valid() { 0 < target <= max }
  }

  datatype NewlineMode = NoNewline | Lf | Crlf | Mixed

  function ModeFromFlags(lf: bool, crlf: bool): NewlineMode {
    if lf && crlf then Mixed else if lf then Lf else if crlf then Crlf else NoNewline
  }

  /** Some LF before `n` has no CR in front of it. */
  ghost predicate HasBareLf(t: seq<Byte>, n: nat) {
    exists i :: 0 <= i < n && i < |t| && t[i] == LF && !AfterCr(t, i)
  }

  ghost predicate HasCrlf(t: seq<Byte>, n: nat) {
    exists i :: 0 <= i < n && i < |t| && t[i] == LF && AfterCr(t, i)
  }

  predicate AfterCr(t: seq<Byte>, i: int) { 0 < i <= |t| && t[i - 1] == CR }

  /** `Lf` for LFs none of which follows a CR, `Crlf` for LFs that all do, `Mixed` for both, `NoNewline` for no LF. */
  ghost predicate IsNewlineMode(t: seq<Byte>, mode: NewlineMode) {
    var bare := exists i :: 0 <= i < |t| && t[i] == 10 && (i > 0 ==> t[i - 1] != 13);
    var paired := exists i :: 0 < i < |t| && t[i] == 10 && t[i - 1] == 13;
    && (mode.Lf? <==> bare && !paired)
    && (mode.Crlf? <==> paired && !bare)
    && (mode.Mixed? <==> bare && paired)
    && (mode.NoNewline? <==> !bare && !paired)
  }

  /** The two flags decide the mode. */
  lemma {:induction false} FlagsDecideMode(t: seq<Byte>, mode: NewlineMode)
    ensures IsNewlineMode(t, mode) <==> mode == ModeFromFlags(HasBareLf(t, |t|), HasCrlf(t, |t|))
  {
    var bare := exists i :: 0 <= i < |t| && t[i] == 10 && (i > 0 ==> t[i - 1] != 13);
    var paired := exists i :: 0 < i < |t| && t[i] == 10 && t[i - 1] == 13;
    if bare { var i :| 0 <= i < |t| && t[i] == 10 && (i > 0 ==> t[i - 1] != 13); assert t[i] == LF && !AfterCr(t, i); }
    if paired { var i :| 0 < i < |t| && t[i] == 10 && t[i - 1] == 13; assert t[i] == LF && AfterCr(t, i); }
  }

  datatype PlannedChunk = PlannedChunk(
    chunkId: nat, logicalOffset: nat, uncompressedSize: nat, firstLine: nat, lineCount: nat, flags: nat)

  datatype ChunkPlan = ChunkPlan(chunks: seq<PlannedChunk>, lineCount: nat, newlineMode: NewlineMode)

  /** 64 MiB of 128-byte chunk table entries. */
  const MAX_CHUNKS: nat := 524288

  predicate SplitsCrlf(input: seq<Byte>, end: nat) {
    0 < end < |input| && input[end - 1] == CR && input[end] == LF
  }

  /** A cut that neither splits a scalar nor a CRLF pair. */
  predicate SafeCut(input: seq<Byte>, end: nat) {
    IsBoundary(input, end) && !SplitsCrlf(input, end)
  }

  /** Inside the text a safe cut is one in front of no continuation byte and not between CR and LF. */
  lemma {:induction false} SafeCutIs(input: seq<Byte>, end: nat)
    requires 0 < end < |input|
    ensures SafeCut(input, end) <==> !(128 <= input[end] <= 191) && !(input[end - 1] == 13 && input[end] == 10)
  {
  }

  /** Just past the last LF in `[start, end)`. */
  function LastLf(input: seq<Byte>, start: nat, end: nat): (r: Option<nat>)
    requires end <= |input|
    ensures r.Some? ==> start < r.value <= end && input[r.value - 1] == LF
    ensures forall i :: (if r.Some? then r.value else start) <= i < end ==> input[i] != LF
    decreases end
  {
    if end <= start then None else if input[end - 1] == LF then Some(end) else LastLf(input, start, end - 1)
  }

  method LastLineBoundary(input: seq<Byte>, start: nat, end: nat) returns (r: Option<nat>)
    requires start <= end <= |input|
    ensures r == LastLf(input, start, end)
  {
    var cursor := start;
    var boundary: Option<nat> := None;
    while cursor < end
      invariant start <= cursor <= end && boundary == LastLf(input, start, cursor)
    {
      if input[cursor] == LF { boundary := Some(cursor + 1); }
      cursor := cursor + 1;
    }
    if boundary.Some? && !(boundary.value > start && !SplitsCrlf(input, boundary.value)) { return None; }
    return boundary;
  }

  /** The largest safe cut in `(start, maxEnd]`. */
  function PreviousValidSplit(input: seq<Byte>, start: nat, maxEnd: nat): (r: Option<nat>)
    ensures r.Some? ==> start < r.value <= maxEnd && SafeCut(input, r.value)
    ensures forall c :: (if r.Some? then r.value else start) < c <= maxEnd ==> !SafeCut(input, c)
    decreases maxEnd
  {
    if maxEnd <= start then None
    else if SafeCut(input, maxEnd) then Some(maxEnd)
    else PreviousValidSplit(input, start, maxEnd - 1)
  }

  function ChooseEnd(input: seq<Byte>, start: nat, options: ChunkerOptions): (r: Option<nat>)
    requires start < |input|
  {
    if |input| - start <= options.target then Some(|input|)
    else
      var maxEnd := Min(start + options.max, |input|);
      if options.max < options.target then None
      else if LastLf(input, start, start + options.target).Some? then LastLf(input, start, start + options.target)
      else if LastLf(input, start, maxEnd).Some? then LastLf(input, start, maxEnd)
      else PreviousValidSplit(input, start, maxEnd)
  }

  method ChooseChunkEnd(input: seq<Byte>, start: nat, options: ChunkerOptions) returns (r: Option<nat>)
    requires start < |input| && options.Valid()
    ensures r == ChooseEnd(input, start, options)
  {
    var remaining := |input| - start;
    if remaining <= options.target { return Some(|input|); }
    var targetEnd := start + options.target;
    var maxEnd := Min(start + options.max, |input|);
    var lineEnd := LastLineBoundary(input, start, targetEnd);
    if lineEnd.Some? { return lineEnd; }
    lineEnd := LastLineBoundary(input, start, maxEnd);
    if lineEnd.Some? { return lineEnd; }
    return PreviousValidSplit(input, start, maxEnd);
  }

  /** A chosen cut makes progress, respects the maximum, and is safe. */
  lemma {:induction false} ChosenCutIsSafe(input: seq<Byte>, start: nat, options: ChunkerOptions)
    requires start < |input| && options.Valid() && Utf8.Valid(input) && ChooseEnd(input, start, options).Some?
    ensures var e := ChooseEnd(input, start, options).value;
            start < e <= Min(start + options.max, |input|) && SafeCut(input, e)
  {
    var e := ChooseEnd(input, start, options).value;
    if e > 0 && e <= |input| && input[e - 1] == LF { AfterAscii(input, 0, e - 1); }
  }

  /** A line break follows position `c`, with none after it before `end`. */
  predicate LastBreak(input: seq<Byte>, start: nat, end: nat, c: nat) {
    start < c <= end <= |input| && input[c - 1] == LF && NoLf(input, c, end)
  }

  /**
   * Where the cut falls: at the end if the rest fits the target; else after the last line break
   * within the target; else after the last one within the maximum; else at the largest safe cut.
   */
  lemma {:induction false} CutPreference(input: seq<Byte>, start: nat, options: ChunkerOptions, e: nat)
    requires start < |input| && options.Valid() && ChooseEnd(input, start, options) == Some(e)
    ensures var target, max := start + options.target, Min(start + options.max, |input|);
            if |input| <= target then e == |input|
            else if !NoLf(input, start, target) then LastBreak(input, start, target, e)
            else if !NoLf(input, start, max) then LastBreak(input, start, max, e)
            else start < e <= max && SafeCut(input, e) && forall c :: e < c <= max ==> !SafeCut(input, c)
  {
    hide SafeCut, LastLf, PreviousValidSplit;
    var target, max := start + options.target, Min(start + options.max, |input|);
    if |input| > target {
      var a, b := LastLf(input, start, target), LastLf(input, start, max);
      assert a.Some? ==> input[a.value - 1] == LF;
      assert b.Some? ==> input[b.value - 1] == LF;
    }
  }

  /** With room for the longest scalar a safe cut always exists. */
  lemma {:induction false} CutExists(input: seq<Byte>, start: nat, options: ChunkerOptions)
    requires start < |input| && options.Valid() && options.max >= 4
    requires ValidFrom(input, start)
    ensures ChooseEnd(input, start, options).Some?
  {
    var maxEnd := Min(start + options.max, |input|);
    if maxEnd < |input| {
      var n := ScalarLen(input, start);
      assert ValidFrom(input, start + n);
      assert IsBoundary(input, start + n);
      if SplitsCrlf(input, start + n) {
        assert n == 1;
        assert ScalarLen(input, start + 1) == 1;
        assert ValidFrom(input, start + 2) && SafeCut(input, start + 2);
      } else {
        assert SafeCut(input, start + n);
      }
    } else {
      assert SafeCut(input, maxEnd);
    }
  }

  /** All the cuts from `start` on, or None where some cut cannot be found. */
  function CutsFrom(input: seq<Byte>, start: nat, options: ChunkerOptions): Option<seq<nat>>
    decreases |input| - start
  {
    if start >= |input| then Some([])
    else match ChooseEnd(input, start, options)
      case None => None
      case Some(e) =>
        if e <= start then None
        else match CutsFrom(input, e, options)
          case None => None
          case Some(rest) => Some([e] + rest)
  }

  /** For every valid text, a maximum of at least four bytes never leaves the planner without a cut. */
  lemma {:induction false} CutsAlwaysExist(input: seq<Byte>, start: nat, options: ChunkerOptions)
    requires options.Valid() && options.max >= 4
    requires Utf8.Valid(input) && ValidFrom(input, start)
    ensures CutsFrom(input, start, options).Some?
    decreases |input| - start
  {
    if start < |input| {
      CutExists(input, start, options);
      ChosenCutIsSafe(input, start, options);
      var e := ChooseEnd(input, start, options).value;
      BoundaryIsValid(input, start, e);
      CutsAlwaysExist(input, e, options);
    }
  }

  /** Three bytes are not enough: a four-byte scalar longer than the target cannot be cut. */
  lemma {:induction false} ThreeBytesNotEnough()
    ensures var input: seq<Byte> := [0xF0, 0x9F, 0x98, 0x80]; var options := ChunkerOptions(3, 3);
            options.Valid() && Utf8.Valid(input) && CutsFrom(input, 0, options) == None
  {
    var input: seq<Byte> := [0xF0, 0x9F, 0x98, 0x80];
    var options := ChunkerOptions(3, 3);
    assert ScalarLen(input, 0) == 4 && ValidFrom(input, 4);
    assert LastLf(input, 0, 3) == None by { assert forall i :: 0 <= i < 3 ==> input[i] != LF; }
    assert forall c :: 0 < c <= 3 ==> !IsBoundary(input, c);
    assert PreviousValidSplit(input, 0, 3) == None;
    assert ChooseEnd(input, 0, options) == None;
  }

  /** The line facts a chunk `[start, end)` of the text must carry. */
  predicate Describes(t: seq<Byte>, start: nat, end: nat, firstLine: nat, lineCount: nat, flags: nat) {
    && start < end <= |t|
    && firstLine == |Starts(t, 0, start)|
    && lineCount == |Starts(t, start, end)|
    && flags == if start > 0 && t[start - 1] != LF then STARTS_WITH_LINE_CONTINUATION else 0
  }

  function PlannedEnd(chunks: seq<PlannedChunk>, i: nat): nat
    requires i <= |chunks|
  {
    if i == 0 then 0 else chunks[i - 1].logicalOffset + chunks[i - 1].uncompressedSize
  }

  ghost predicate PlannedAt(t: seq<Byte>, options: ChunkerOptions, chunks: seq<PlannedChunk>, i: nat)
    requires i < |chunks|
  {
    var c := chunks[i];
    var end := c.logicalOffset + c.uncompressedSize;
    && c.chunkId == i
    && c.logicalOffset == PlannedEnd(chunks, i)
    && 0 < c.uncompressedSize <= options.max
    && end <= |t|
    && SafeCut(t, c.logicalOffset) && SafeCut(t, end)
    && Utf8.Valid(t[c.logicalOffset..end])
    && Describes(t, c.logicalOffset, end, c.firstLine, c.lineCount, c.flags)
  }

  /** The plan tiles the text with safe, bounded chunks that carry the text's line structure. */
  ghost predicate PlanOf(t: seq<Byte>, options: ChunkerOptions, plan: ChunkPlan) {
    && |plan.chunks| <= MAX_CHUNKS
    && (forall i :: 0 <= i < |plan.chunks| ==> PlannedAt(t, options, plan.chunks, i))
    && PlannedEnd(plan.chunks, |plan.chunks|) == |t|
    && plan.lineCount == |Starts(t, 0, |t|)|
    && IsNewlineMode(t, plan.newlineMode)
  }

  lemma {:induction false} HasStep(t: seq<Byte>, n: nat)
    requires n < |t|
    ensures HasBareLf(t, n + 1) == (HasBareLf(t, n) || (t[n] == LF && !AfterCr(t, n)))
    ensures HasCrlf(t, n + 1) == (HasCrlf(t, n) || (t[n] == LF && AfterCr(t, n)))
  {
    if t[n] == LF { assert t[n] == LF; }
  }

  lemma {:induction false} NoneYet(t: seq<Byte>)
    ensures !HasBareLf(t, 0) && !HasCrlf(t, 0)
  {
  }

  method LineInfoFromBytes(input: seq<Byte>) returns (lineStarts: seq<nat>, mode: NewlineMode)
    ensures lineStarts == Starts(input, 0, |input|)
    ensures IsNewlineMode(input, mode)
  {
    hide IsNewlineMode, HasBareLf, HasCrlf;
    NoneYet(input);
    FlagsDecideMode(input, NoNewline);
    if input == [] { return [], NoNewline; }
    lineStarts := [0];
    var lfCount, crlfCount := 0, 0;
    assert Starts(input, 0, 1) == Starts(input, 0, 0) + [0];
    for index := 0 to |input|
      invariant lineStarts == Starts(input, 0, Min(index + 1, |input|))
      invariant lfCount >= 0 && crlfCount >= 0
      invariant lfCount > 0 <==> HasBareLf(input, index)
      invariant crlfCount > 0 <==> HasCrlf(input, index)
    {
      HasStep(input, index);
      if input[index] == LF {
        if index > 0 && input[index - 1] == CR { crlfCount := crlfCount + 1; } else { lfCount := lfCount + 1; }
        if index + 1 < |input| { lineStarts := lineStarts + [index + 1]; }
      }
    }
    mode := ModeFromFlags(lfCount > 0, crlfCount > 0);
    FlagsDecideMode(input, mode);
  }

  /** `partition_point` by `< target`. */
  function LowerBound(values: seq<nat>, target: nat): nat {
    if values == [] || values[0] >= target then 0 else 1 + LowerBound(values[1..], target)
  }

  lemma {:induction false} LowerBoundSplit(a: seq<nat>, b: seq<nat>, target: nat)
    requires forall i :: 0 <= i < |a| ==> a[i] < target
    requires b != [] ==> b[0] >= target
    ensures LowerBound(a + b, target) == |a|
    decreases |a|
  {
    if a == [] {
      assert a + b == b;
    } else {
      assert (a + b)[1..] == a[1..] + b;
      LowerBoundSplit(a[1..], b, target);
    }
  }

  /** Looking a cut up among the line starts counts the starts before it. */
  lemma {:induction false} LowerBoundCounts(t: seq<Byte>, p: nat)
    requires p <= |t|
    ensures LowerBound(Starts(t, 0, |t|), p) == |Starts(t, 0, p)|
  {
    hide Starts, LowerBound;
    StartsSplit(t, 0, p, |t|);
    StartsExact(t, 0, p);
    StartsExact(t, p, |t|);
    var a, b := Starts(t, 0, p), Starts(t, p, |t|);
    assert forall i :: 0 <= i < |a| ==> a[i] in a;
    assert b != [] ==> b[0] in b;
    LowerBoundSplit(Starts(t, 0, p), Starts(t, p, |t|), p);
  }

  /** The chunks planned so far end at the safe cut `start`. */
  ghost predicate PlannedUpTo(t: seq<Byte>, options: ChunkerOptions, chunks: seq<PlannedChunk>, start: nat) {
    && start == PlannedEnd(chunks, |chunks|) <= |t|
    && SafeCut(t, start) && ValidFrom(t, start)
    && forall i :: 0 <= i < |chunks| ==> PlannedAt(t, options, chunks, i)
  }

  /** `done` cuts have been made and the rest are the cuts from `start`. */
  ghost predicate CutsLeft(t: seq<Byte>, options: ChunkerOptions, done: nat, start: nat) {
    && (CutsFrom(t, 0, options).Some? <==> CutsFrom(t, start, options).Some?)
    && (CutsFrom(t, start, options).Some? ==>
          |CutsFrom(t, 0, options).value| == done + |CutsFrom(t, start, options).value|)
  }

  lemma {:induction false} CutsLeftStep(t: seq<Byte>, options: ChunkerOptions, done: nat, start: nat)
    requires CutsLeft(t, options, done, start) && start < |t|
    ensures match ChooseEnd(t, start, options)
            case None => CutsFrom(t, 0, options).None?
            case Some(e) => if e <= start then CutsFrom(t, 0, options).None? else CutsLeft(t, options, done + 1, e)
    ensures CutsFrom(t, 0, options).Some? ==> |CutsFrom(t, 0, options).value| >= done + 1
  {
  }

  lemma {:induction false} CutSliceValid(t: seq<Byte>, a: nat, b: nat)
    requires ValidFrom(t, a) && a <= b <= |t| && SafeCut(t, b)
    ensures ValidFrom(t, b) && Utf8.Valid(t[a..b])
  {
    hide ValidFrom;
    BoundaryIsValid(t, a, b);
    SliceValid(t, a, a, b);
  }

  /** Appending one described chunk that ends at a safe cut keeps the plan. */
  lemma {:induction false} NewChunkPlanned(t: seq<Byte>, options: ChunkerOptions, chunks: seq<PlannedChunk>, c: PlannedChunk)
    requires PlannedUpTo(t, options, chunks, c.logicalOffset)
    requires c.chunkId == |chunks|
    requires 0 < c.uncompressedSize <= options.max && c.logicalOffset + c.uncompressedSize <= |t|
    requires SafeCut(t, c.logicalOffset + c.uncompressedSize)
    requires Describes(t, c.logicalOffset, c.logicalOffset + c.uncompressedSize, c.firstLine, c.lineCount, c.flags)
    ensures PlannedUpTo(t, options, chunks + [c], c.logicalOffset + c.uncompressedSize)
  {
    hide SafeCut, Describes, Utf8.Valid, ValidFrom;
    var all := chunks + [c];
    CutSliceValid(t, c.logicalOffset, c.logicalOffset + c.uncompressedSize);
    forall i | 0 <= i < |all| ensures PlannedAt(t, options, all, i) {
      assert i < |chunks| ==> all[i] == chunks[i] && PlannedAt(t, options, chunks, i);
      assert PlannedEnd(all, i) == PlannedEnd(chunks, i);
    }
  }

  /** Planning succeeds exactly on valid options and text for which few enough cuts exist. */
  method PlanChunks(input: seq<Byte>, options: ChunkerOptions) returns (r: Result<ChunkPlan>)
    ensures r.Ok? <==> && options.Valid() && Utf8.Valid(input)
                       && CutsFrom(input, 0, options).Some? && |CutsFrom(input, 0, options).value| <= MAX_CHUNKS
    ensures r.Ok? ==> PlanOf(input, options, r.value)
  {
    if !options.Valid() { return Err; }
    if !Utf8.Valid(input) { return Err; }
    var lineStarts, mode := LineInfoFromBytes(input);
    if input == [] { return Ok(ChunkPlan([], 0, mode)); }
    var chunks: seq<PlannedChunk> := [];
    var start := 0;
    while start < |input|
      invariant |chunks| <= MAX_CHUNKS
      invariant PlannedUpTo(input, options, chunks, start)
      invariant CutsLeft(input, options, |chunks|, start)
      decreases |input| - start
    {
      var next := PlanNext(input, options, lineStarts, chunks, start);
      if next.Err? { return Err; }
      chunks := next.value;
      start := chunks[|chunks| - 1].logicalOffset + chunks[|chunks| - 1].uncompressedSize;
    }
    return Ok(ChunkPlan(chunks, |lineStarts|, mode));
  }

  /** One turn of the planning loop. */
  method PlanNext(input: seq<Byte>, options: ChunkerOptions, lineStarts: seq<nat>, chunks: seq<PlannedChunk>, start: nat)
    returns (r: Result<seq<PlannedChunk>>)
    requires options.Valid() && Utf8.Valid(input) && lineStarts == Starts(input, 0, |input|)
    requires start < |input| && |chunks| <= MAX_CHUNKS
    requires PlannedUpTo(input, options, chunks, start) && CutsLeft(input, options, |chunks|, start)
    ensures r.Err? ==> CutsFrom(input, 0, options).None? || |CutsFrom(input, 0, options).value| > MAX_CHUNKS
    ensures r.Ok? ==> |r.value| == |chunks| + 1 <= MAX_CHUNKS
    ensures r.Ok? ==> start < PlannedEnd(r.value, |r.value|)
    ensures r.Ok? ==> PlannedUpTo(input, options, r.value, PlannedEnd(r.value, |r.value|))
    ensures r.Ok? ==> CutsLeft(input, options, |r.value|, PlannedEnd(r.value, |r.value|))
  {
    hide CutsFrom, CutsLeft, SafeCut, Describes, Starts, ValidFrom, Utf8.Valid, PlannedUpTo, ChooseEnd;
    CutsLeftStep(input, options, |chunks|, start);
    if (|chunks| + 1) * 128 > 64 * 1024 * 1024 { return Err; }
    var chosen := ChooseChunkEnd(input, start, options);
    if chosen.None? { return Err; }
    ChosenCutIsSafe(input, start, options);
    if chosen.value <= start { return Err; }
    var chunk := DescribeChunk(input, lineStarts, |chunks|, start, chosen.value);
    NewChunkPlanned(input, options, chunks, chunk);
    var all := chunks + [chunk];
    assert PlannedEnd(all, |all|) == chosen.value;
    return Ok(all);
  }

  method DescribeChunk(input: seq<Byte>, lineStarts: seq<nat>, id: nat, start: nat, end: nat) returns (c: PlannedChunk)
    requires start < end <= |input| && lineStarts == Starts(input, 0, |input|)
    ensures c.chunkId == id && c.logicalOffset == start && c.uncompressedSize == end - start
    ensures Describes(input, start, end, c.firstLine, c.lineCount, c.flags)
  {
    var firstLine := LowerBound(lineStarts, start);
    var lineEnd := LowerBound(lineStarts, end);
    LowerBoundCounts(input, start);
    LowerBoundCounts(input, end);
    StartsSplit(input, 0, start, end);
    var flags := if start > 0 && input[start - 1] != LF then STARTS_WITH_LINE_CONTINUATION else 0;
    return PlannedChunk(id, start, end - start, firstLine, lineEnd - firstLine, flags);
  }
}
