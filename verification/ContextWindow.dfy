/**
 * Context around a hit: the widest affordable scan on each side, found by two
 * binary searches over a monotone cost, and a bounded excerpt of whole lines.
 */
module ContextWindow {
  import opened Bytes
  import opened Lines
  import opened ChunkTable
  import opened ChunkCache
  import opened Verification

  datatype Options = Options(before: nat, after: nat, scan: U64, physical: U64, chunks: U64, excerpt: U64)

  // ----- cost -----

  /** Decoding the chunks of a nonempty range stays within both physical limits. */
  ghost predicate Affordable(c: Container, start: nat, end: nat, o: Options)
    requires c.Valid() && start < end <= |c.text|
  {
    RangeChunks(c, start, end);
    && SpanBytes(c.entries, FirstChunk(c, start), PastChunk(c, end)) <= o.physical
    && PastChunk(c, end) - FirstChunk(c, start) <= o.chunks
  }

  /** `fits` decides it, chunk by chunk. */
  method Fits(c: Container, start: U64, end: U64, o: Options) returns (ok: bool)
    requires c.Valid() && start < end <= |c.text|
    ensures ok == Affordable(c, start, end, o)
  {
    hide FirstChunk, PastChunk, Tiles;
    RangeChunks(c, start, end);
    ghost var past := PastChunk(c, end);
    var first := FirstPast(c, start);
    var bytes: nat, count: nat, i := 0, 0, first;
    while i < |c.entries| && c.entries[i].logicalOffset < end
      invariant first <= i <= past && count == i - first
      invariant bytes + SpanBytes(c.entries, i, past) == SpanBytes(c.entries, first, past)
      invariant i > first ==> bytes <= o.physical && count <= o.chunks
      decreases |c.entries| - i
    {
      BeforePast(c, end, i);
      bytes := bytes + c.entries[i].uncompressedSize;
      count := count + 1;
      i := i + 1;
      if bytes > o.physical || count > o.chunks { return false; }
    }
    if i < past { AllBeforePast(c, end, i); }
    return true;
  }

  /** The first chunk that ends after `start`. */
  method FirstPast(c: Container, start: U64) returns (i: nat)
    requires c.Valid() && start < |c.text|
    ensures i == FirstChunk(c, start)
  {
    var at := ChunkIndexForOffset(c.entries, start, |c.text|);
    i := at.value;
  }

  lemma {:induction false} AllBeforePast(c: Container, end: nat, i: nat)
    requires c.Valid() && 0 < end <= |c.text| && i < PastChunk(c, end)
    ensures i < |c.entries| && c.entries[i].logicalOffset < end
  {
    RangeChunks(c, end - 1, end);
    TilesOrdered(c.entries, |c.text|, i, PastChunk(c, end) - 1);
  }

  /** A smaller range never costs more. */
  lemma {:induction false} AffordableShrinks(c: Container, a: nat, b: nat, x: nat, y: nat, o: Options)
    requires c.Valid() && a <= x < y <= b <= |c.text| && Affordable(c, a, b, o)
    ensures Affordable(c, x, y, o)
  {
    hide FirstChunk, PastChunk, SpanBytes, Tiles;
    RangeChunks(c, a, b);
    RangeChunks(c, x, y);
    ChunkOrder(c, a, x);
    ChunkOrder(c, y - 1, b - 1);
    PastIs(c, y);
    PastIs(c, b);
    var f, p := FirstChunk(c, x), PastChunk(c, y);
    SpanBytesFit(c, FirstChunk(c, a), PastChunk(c, b));
    SpanBytesFit(c, f, p);
    EndsGrow(c, FirstChunk(c, a), f);
    EndsGrow(c, p, PastChunk(c, b));
  }

  lemma {:induction false} PastIs(c: Container, end: nat)
    requires end > 0
    ensures PastChunk(c, end) == FirstChunk(c, end - 1) + 1
  {
  }

  lemma {:induction false} ChunkOrder(c: Container, x: nat, y: nat)
    requires c.Valid() && x <= y < |c.text|
    ensures FirstChunk(c, x) <= FirstChunk(c, y)
  {
    RangeChunks(c, x, x + 1);
    RangeChunks(c, y, y + 1);
    var i, j := FirstChunk(c, x), FirstChunk(c, y);
    if j < i { TilesOrdered(c.entries, |c.text|, j, i); }
  }

  lemma {:induction false} EndsGrow(c: Container, i: nat, j: nat)
    requires c.Valid() && i <= j <= |c.entries|
    ensures EndBefore(c.entries, i) <= EndBefore(c.entries, j)
  {
    SpanBytesFit(c, i, j);
  }

  // ----- the two binary searches -----

  /** The smallest affordable start from `target` on. */
  ghost predicate Leftmost(c: Container, target: nat, hitStart: nat, hitEnd: nat, o: Options, s: nat)
    requires c.Valid() && hitStart < hitEnd <= |c.text|
  {
    target <= s <= hitStart && Affordable(c, s, hitEnd, o) && forall x :: target <= x < s ==> !Affordable(c, x, hitEnd, o)
  }

  /** The largest affordable end up to `target`. */
  ghost predicate Rightmost(c: Container, start: nat, hitEnd: nat, target: nat, o: Options, e: nat)
    requires c.Valid() && start < hitEnd && target <= |c.text|
  {
    hitEnd <= e <= target && Affordable(c, start, e, o) && forall x :: e < x <= target ==> !Affordable(c, start, x, o)
  }

  method FitLeft(c: Container, target: U64, hitStart: U64, hitEnd: U64, o: Options) returns (low: U64)
    requires c.Valid() && target <= hitStart < hitEnd <= |c.text| && Affordable(c, hitStart, hitEnd, o)
    ensures Leftmost(c, target, hitStart, hitEnd, o, low)
  {
    hide Affordable, Tiles;
    low := target;
    var high := hitStart;
    while low < high
      invariant target <= low <= high <= hitStart && Affordable(c, high, hitEnd, o)
      invariant forall s :: target <= s < low ==> !Affordable(c, s, hitEnd, o)
    {
      var mid := low + (high - low) / 2;
      var ok := Fits(c, mid, hitEnd, o);
      if ok {
        high := mid;
      } else {
        forall s | target <= s <= mid ensures !Affordable(c, s, hitEnd, o) {
          if Affordable(c, s, hitEnd, o) { AffordableShrinks(c, s, hitEnd, mid, hitEnd, o); }
        }
        low := mid + 1;
      }
    }
  }

  method FitRight(c: Container, start: U64, hitEnd: U64, target: U64, o: Options) returns (low: U64)
    requires c.Valid() && start < hitEnd <= target <= |c.text| && Affordable(c, start, hitEnd, o)
    ensures Rightmost(c, start, hitEnd, target, o, low)
  {
    hide Affordable, Tiles;
    low := hitEnd;
    var high := target;
    while low < high
      invariant hitEnd <= low <= high <= target && Affordable(c, start, low, o)
      invariant forall e :: high < e <= target ==> !Affordable(c, start, e, o)
    {
      var mid := low + (high - low + 1) / 2;
      var ok := Fits(c, start, mid, o);
      if ok {
        low := mid;
      } else {
        forall e | mid <= e <= target ensures !Affordable(c, start, e, o) {
          if Affordable(c, start, e, o) { AffordableShrinks(c, start, e, start, mid, o); }
        }
        high := mid - 1;
      }
    }
  }

  // ----- the excerpt -----

  /** The longest excerpt within `max` that holds the hit, as evenly placed around it as possible. */
  method LimitExcerpt(desiredStart: U64, desiredEnd: U64, hitStart: U64, hitEnd: U64, max: U64) returns (start: U64, end: U64)
    requires desiredStart <= hitStart < hitEnd <= desiredEnd && hitEnd - hitStart <= max
    ensures desiredStart <= start <= hitStart && hitEnd <= end <= desiredEnd
    ensures end - start == Min(max, desiredEnd - desiredStart)
    ensures hitStart - start >= Min(hitStart - desiredStart, (max - (hitEnd - hitStart)) / 2)
    ensures end - hitEnd >= Min(desiredEnd - hitEnd, (max - (hitEnd - hitStart)) / 2)
  {
    var available := max - (hitEnd - hitStart);
    var beforeWanted := hitStart - desiredStart;
    var afterWanted := desiredEnd - hitEnd;
    var before := Min(beforeWanted, available / 2);
    var after := Min(afterWanted, available - before);
    before := before + Min(SaturatingSub(beforeWanted, before), available - before - after);
    after := after + Min(SaturatingSub(afterWanted, after), available - before - after);
    start, end := hitStart - before, hitEnd + after;
  }

  /** LF-terminated pieces of a byte string, the last one possibly without LF. */
  method Segments(bytes: seq<Byte>) returns (result: seq<Span>)
    ensures result == LinesFrom(bytes, 0)
  {
    hide LinesFrom, LineEnd;
    result := [];
    var start := 0;
    for index := 0 to |bytes|
      invariant start <= index && result + LinesFrom(bytes, start) == LinesFrom(bytes, 0)
      invariant NoLf(bytes, start, index)
    {
      if bytes[index] == LF {
        SegmentEnd(bytes, start, index);
        LinesFromStep(bytes, result, start);
        result := result + [(start, index + 1)];
        start := index + 1;
      }
    }
    if start < |bytes| {
      SegmentEnd(bytes, start, |bytes| - 1);
      LinesFromStep(bytes, result, start);
      result := result + [(start, |bytes|)];
    }
    LinesFromEnd(bytes, |bytes|);
  }

  lemma {:induction false} SegmentEnd(bytes: seq<Byte>, start: nat, index: nat)
    requires start <= index < |bytes| && NoLf(bytes, start, index) && (bytes[index] == LF || index + 1 == |bytes|)
    ensures LineEnd(bytes, start) == index + 1
  {
    var e := LineEnd(bytes, start);
    assert e == |bytes| || bytes[e - 1] == LF;
  }

  lemma {:induction false} LinesFromEnd(bytes: seq<Byte>, p: nat)
    requires p >= |bytes|
    ensures LinesFrom(bytes, p) == []
  {
  }

  datatype Stop = Complete | ScopeBoundary | Budget

  function StopReason(requested: nat, returned: nat, clipped: bool, reachedScope: bool, fragment: bool): Stop {
    if clipped || fragment then Budget
    else if returned >= requested then Complete
    else if reachedScope then ScopeBoundary
    else Budget
  }

  // ----- the scan -----

  /** The scan: inside the scope, around the hit, within the scan and physical limits. */
  ghost predicate ScanOk(c: Container, scopeStart: nat, scopeEnd: nat, hitStart: nat, hitEnd: nat, o: Options, start: nat, end: nat)
    requires c.Valid()
  {
    && scopeStart <= start <= hitStart < hitEnd <= end <= scopeEnd <= |c.text|
    && end - start <= o.scan
    && Affordable(c, start, end, o)
  }

  method ScanRange(c: Container, scopeStart: U64, scopeEnd: U64, hitStart: U64, hitEnd: U64, o: Options) returns (r: Result<(U64, U64)>)
    requires c.Valid() && scopeStart <= hitStart < hitEnd <= scopeEnd <= |c.text| && hitEnd - hitStart <= o.scan
    ensures r.Ok? <==> Affordable(c, hitStart, hitEnd, o)
    ensures r.Ok? ==> ScanOk(c, scopeStart, scopeEnd, hitStart, hitEnd, o, r.value.0, r.value.1)
    ensures r.Ok? ==> exists s: nat :: Extreme(c, scopeStart, scopeEnd, hitStart, hitEnd, o, r.value.0, r.value.1, s)
  {
    hide Affordable, Tiles, Leftmost, Rightmost;
    TextFits(c);
    var side := (o.scan - (hitEnd - hitStart)) / 2;
    var leftTarget := Max(SaturatingSub(hitStart, side), scopeStart);
    var rightTarget := Min(hitEnd + side, scopeEnd);
    var ok := Fits(c, hitStart, hitEnd, o);
    if !ok { return Err; }
    var start := FitLeft(c, leftTarget, hitStart, hitEnd, o);
    OpenLeftmost(c, leftTarget, hitStart, hitEnd, o, start);
    var end := FitRight(c, start, hitEnd, rightTarget, o);
    OpenRightmost(c, start, hitEnd, rightTarget, o, end);
    ghost var fitted := start;
    if start > scopeStart && end - (start - 1) <= o.scan {
      var guarded := Fits(c, start - 1, end, o);
      if guarded { start := start - 1; }
    }
    assert start + 1 == fitted <==> GuardFits(c, scopeStart, fitted, end, o);
    assert Extreme(c, scopeStart, scopeEnd, hitStart, hitEnd, o, start, end, fitted);
    return Ok((start, end));
  }

  /** The byte in front of the fitted scan is in scope and affordable in the same read. */
  ghost predicate GuardFits(c: Container, scopeStart: nat, fitted: nat, end: nat, o: Options)
    requires c.Valid() && end <= |c.text|
  {
    scopeStart < fitted <= end && end - (fitted - 1) <= o.scan && Affordable(c, fitted - 1, end, o)
  }

  /**
   * The scan is as wide as half the spare budget on each side and the physical limits allow,
   * plus one guard byte exactly when that fits.
   */
  ghost predicate Extreme(c: Container, scopeStart: nat, scopeEnd: nat, hitStart: nat, hitEnd: nat, o: Options, start: nat, end: nat, fitted: nat)
    requires c.Valid() && scopeStart <= hitStart < hitEnd <= scopeEnd <= |c.text| && hitEnd - hitStart <= o.scan
  {
    var side := (o.scan - (hitEnd - hitStart)) / 2;
    && fitted <= hitStart && end <= |c.text|
    && Leftmost(c, Max(SaturatingSub(hitStart, side), scopeStart), hitStart, hitEnd, o, fitted)
    && Rightmost(c, fitted, hitEnd, Min(hitEnd + side, scopeEnd), o, end)
    && (start == fitted || start + 1 == fitted)
    && (start + 1 == fitted <==> GuardFits(c, scopeStart, fitted, end, o))
  }

  lemma {:induction false} OpenLeftmost(c: Container, target: nat, hitStart: nat, hitEnd: nat, o: Options, s: nat)
    requires c.Valid() && hitStart < hitEnd <= |c.text| && Leftmost(c, target, hitStart, hitEnd, o, s)
    ensures target <= s <= hitStart && Affordable(c, s, hitEnd, o)
  {
  }

  lemma {:induction false} OpenRightmost(c: Container, start: nat, hitEnd: nat, target: nat, o: Options, e: nat)
    requires c.Valid() && start < hitEnd && target <= |c.text| && Rightmost(c, start, hitEnd, target, o, e)
    ensures hitEnd <= e <= target && Affordable(c, start, e, o)
  {
  }

  // ----- whole lines -----

  /** Number of LF-terminated pieces of `[a, b)`, a last piece without LF included. */
  ghost function Pieces(t: seq<Byte>, a: nat, b: nat): nat
    requires b <= |t|
    decreases b - a
  {
    if a >= b then 0 else 1 + Pieces(t, Min(LineEnd(t, a), b), b)
  }

  predicate LineBegins(t: seq<Byte>, scopeStart: nat, p: nat) { p == scopeStart || (0 < p <= |t| && t[p - 1] == LF) }

  predicate LineStops(t: seq<Byte>, scopeEnd: nat, p: nat) { p == scopeEnd || (0 < p <= |t| && t[p - 1] == LF) }

  /** From `start`, exactly `n` whole lines of the scope precede the line of the hit. */
  ghost predicate HoldsBefore(t: seq<Byte>, scopeStart: nat, start: nat, hitStart: nat, n: nat) {
    exists line: nat :: BeforeAt(t, scopeStart, start, hitStart, n, line)
  }

  ghost predicate BeforeAt(t: seq<Byte>, scopeStart: nat, start: nat, hitStart: nat, n: nat, line: nat) {
    && start <= line <= hitStart <= |t| && LineBegins(t, scopeStart, start) && LineBegins(t, scopeStart, line)
    && NoLf(t, line, hitStart) && Pieces(t, start, line) == n
  }

  /** Up to `end`, exactly `n` whole lines of the scope follow the line of the hit's last byte. */
  ghost predicate HoldsAfter(t: seq<Byte>, scopeEnd: nat, end: nat, hitEnd: nat, n: nat) {
    exists line: nat :: AfterAt(t, scopeEnd, end, hitEnd, n, line)
  }

  ghost predicate AfterAt(t: seq<Byte>, scopeEnd: nat, end: nat, hitEnd: nat, n: nat, line: nat) {
    && 0 < hitEnd <= line <= end <= |t| && LineStops(t, scopeEnd, line) && LineStops(t, scopeEnd, end)
    && NoLf(t, hitEnd - 1, line - 1) && Pieces(t, line, end) == n
  }

  /** Segments of a slice, as positions of the text. */
  ghost predicate Sliced(t: seq<Byte>, off: nat, u: seq<Byte>, ls: seq<Span>) {
    off + |u| <= |t| && u == t[off..off + |u|] && ls == LinesFrom(u, 0)
  }

  /** One segment: its bytes hold no LF but the last, and it ends at LF or at the end of the slice. */
  lemma {:induction false} SegmentIs(t: seq<Byte>, off: nat, u: seq<Byte>, ls: seq<Span>, i: nat)
    requires Sliced(t, off, u, ls) && i < |ls|
    ensures ls[i].0 < ls[i].1 <= |u| && NoLf(t, off + ls[i].0, off + ls[i].1 - 1)
    ensures i + 1 < |ls| ==> ls[i].1 == ls[i + 1].0 && t[off + ls[i].1 - 1] == LF
    ensures i + 1 == |ls| ==> ls[i].1 == |u|
    ensures ls[i].0 == 0 || t[off + ls[i].0 - 1] == LF
  {
    LinesTile(u, 0);
    assert IsLine(u, ls[i]);
    var (a, b) := ls[i];
    forall k | off + a <= k < off + b - 1 ensures t[k] != LF { assert u[k - off] == t[k]; }
    assert u[b - 1] == t[off + b - 1];
    assert a > 0 ==> u[a - 1] == t[off + a - 1];
    if i + 1 < |ls| { assert IsLine(u, ls[i + 1]); }
  }

  lemma {:induction false} SegmentsAscend(t: seq<Byte>, off: nat, u: seq<Byte>, ls: seq<Span>, i: nat, j: nat)
    requires Sliced(t, off, u, ls) && i <= j < |ls|
    ensures ls[i].0 <= ls[j].0 && ls[i].1 <= ls[j].1 && (i < j ==> ls[i].1 <= ls[j].0)
    decreases j - i
  {
    hide Sliced;
    SegmentIs(t, off, u, ls, j);
    if i < j { SegmentIs(t, off, u, ls, j - 1); SegmentsAscend(t, off, u, ls, i, j - 1); }
  }

  /** Consecutive segments are that many pieces of the text. */
  lemma {:induction false} PiecesAre(t: seq<Byte>, off: nat, u: seq<Byte>, ls: seq<Span>, i: nat, j: nat)
    requires Sliced(t, off, u, ls) && i <= j < |ls|
    ensures off + ls[j].1 <= |t| && Pieces(t, off + ls[i].0, off + ls[j].1) == j - i + 1
    decreases j - i
  {
    hide Sliced, LineEnd, NoLf;
    SliceFits(t, off, u, ls);
    SegmentIs(t, off, u, ls, i);
    SegmentIs(t, off, u, ls, j);
    SegmentsAscend(t, off, u, ls, i, j);
    PieceEnd(t, off + ls[i].0, off + ls[i].1, off + ls[j].1);
    if i < j { PiecesAre(t, off, u, ls, i + 1, j); }
  }

  lemma {:induction false} SliceFits(t: seq<Byte>, off: nat, u: seq<Byte>, ls: seq<Span>)
    requires Sliced(t, off, u, ls)
    ensures off + |u| <= |t|
  {
  }

  /** The first piece of `[a, b)` ends at the first LF, or at `b`. */
  lemma {:induction false} PieceEnd(t: seq<Byte>, a: nat, m: nat, b: nat)
    requires a < m <= b <= |t| && NoLf(t, a, m - 1) && (t[m - 1] == LF || m == b)
    ensures Min(LineEnd(t, a), b) == m
  {
    var e := LineEnd(t, a);
    assert e == |t| || t[e - 1] == LF;
  }

  // ----- the window -----

  /** Which segments the excerpt wants: the hit's own, and up to `before` and `after` around them. */
  datatype Choice = Choice(first: nat, last: nat, from: nat, upTo: nat)

  ghost predicate Chosen(ls: seq<Span>, hitStart: nat, hitLast: nat, o: Options, k: Choice) {
    && k.from <= k.first <= k.last <= k.upTo < |ls|
    && ls[k.first].0 <= hitStart < ls[k.first].1 && ls[k.last].0 <= hitLast < ls[k.last].1
    && k.from == SaturatingSub(k.first, o.before) && k.upTo == Min(k.last + o.after, |ls| - 1)
  }

  /** The segment that holds a position. */
  method SegmentOf(ls: seq<Span>, p: nat, ghost t: seq<Byte>, ghost off: nat, ghost u: seq<Byte>) returns (i: nat)
    requires Sliced(t, off, u, ls) && p < |u|
    ensures i < |ls| && ls[i].0 <= p < ls[i].1
  {
    hide LinesFrom;
    ghost var at := SegmentHolding(t, off, u, ls, p);
    i := 0;
    while i < |ls| && !(ls[i].0 <= p < ls[i].1)
      invariant i <= at
      decreases |ls| - i
    {
      i := i + 1;
    }
  }

  lemma {:induction false} SegmentHolding(t: seq<Byte>, off: nat, u: seq<Byte>, ls: seq<Span>, p: nat) returns (i: nat)
    requires Sliced(t, off, u, ls) && p < |u|
    ensures i < |ls| && ls[i].0 <= p < ls[i].1
  {
    i := LineOfPosition(u, 0, p);
  }

  /** Segments before `first` that reach past the excerpt's start. */
  function CountBefore(ls: seq<Span>, off: nat, first: nat, start: nat): nat
    requires first <= |ls|
  {
    if first == 0 then 0 else CountBefore(ls, off, first - 1, start) + if off + ls[first - 1].1 > start then 1 else 0
  }

  /** Segments from `i` on that begin before the excerpt's end. */
  function CountAfter(ls: seq<Span>, off: nat, i: nat, end: nat): nat
    requires i <= |ls|
    decreases |ls| - i
  {
    if i == |ls| then 0 else (if off + ls[i].0 < end then 1 else 0) + CountAfter(ls, off, i + 1, end)
  }

  lemma {:induction false} CountBeforeFrom(t: seq<Byte>, off: nat, u: seq<Byte>, ls: seq<Span>, from: nat, first: nat)
    requires Sliced(t, off, u, ls) && from <= first < |ls|
    ensures CountBefore(ls, off, first, off + ls[from].0) == first - from
    decreases first
  {
    hide Sliced;
    if first > 0 {
      if from < first {
        CountBeforeFrom(t, off, u, ls, from, first - 1);
        SegmentsAscend(t, off, u, ls, from, first - 1);
        SegmentIs(t, off, u, ls, first - 1);
      } else {
        NoneBefore(t, off, u, ls, from, first);
      }
    }
  }

  lemma {:induction false} NoneBefore(t: seq<Byte>, off: nat, u: seq<Byte>, ls: seq<Span>, from: nat, k: nat)
    requires Sliced(t, off, u, ls) && k <= from < |ls|
    ensures CountBefore(ls, off, k, off + ls[from].0) == 0
    decreases k
  {
    hide Sliced;
    if k > 0 { NoneBefore(t, off, u, ls, from, k - 1); SegmentsAscend(t, off, u, ls, k - 1, from); }
  }

  lemma {:induction false} CountAfterUpTo(t: seq<Byte>, off: nat, u: seq<Byte>, ls: seq<Span>, i: nat, upTo: nat)
    requires Sliced(t, off, u, ls) && i <= upTo + 1 && upTo < |ls|
    ensures CountAfter(ls, off, i, off + ls[upTo].1) == upTo + 1 - i
    decreases |ls| - i
  {
    hide Sliced;
    if i <= upTo {
      CountAfterUpTo(t, off, u, ls, i + 1, upTo);
      SegmentsAscend(t, off, u, ls, i, upTo);
      SegmentIs(t, off, u, ls, upTo);
    } else {
      NoneAfter(t, off, u, ls, i, upTo);
    }
  }

  lemma {:induction false} NoneAfter(t: seq<Byte>, off: nat, u: seq<Byte>, ls: seq<Span>, i: nat, upTo: nat)
    requires Sliced(t, off, u, ls) && upTo < i <= |ls|
    ensures CountAfter(ls, off, i, off + ls[upTo].1) == 0
    decreases |ls| - i
  {
    hide Sliced;
    if i < |ls| { NoneAfter(t, off, u, ls, i + 1, upTo); SegmentsAscend(t, off, u, ls, upTo, i); }
  }

  datatype View = View(
    start: U64, end: U64, bytes: seq<Byte>, scanStart: U64, scanEnd: U64,
    beforeReturned: nat, beforeStop: Stop, afterReturned: nat, afterStop: Stop, leading: bool, trailing: bool)

  /** A side reported complete holds exactly the requested whole lines. */
  lemma {:induction false} CompleteBefore(t: seq<Byte>, off: nat, u: seq<Byte>, ls: seq<Span>, k: Choice, o: Options, scopeStart: nat, hitStart: nat, hitLast: nat)
    requires off <= hitStart <= hitLast && hitStart <= |t| && Sliced(t, off, u, ls) && Chosen(ls, hitStart - off, hitLast - off, o, k)
    requires CountBefore(ls, off, k.first, off + ls[k.from].0) >= o.before
    requires LineBegins(t, scopeStart, off + ls[k.from].0)
    ensures HoldsBefore(t, scopeStart, off + ls[k.from].0, hitStart, o.before)
  {
    hide Sliced, Pieces, NoLf;
    var line := off + ls[k.first].0;
    CountBeforeFrom(t, off, u, ls, k.from, k.first);
    SegmentIs(t, off, u, ls, k.first);
    SegmentIs(t, off, u, ls, k.from);
    SegmentsAscend(t, off, u, ls, k.from, k.first);
    NoLfPart(t, off + ls[k.first].0, off + ls[k.first].1 - 1, hitStart);
    if k.from < k.first {
      PiecesAre(t, off, u, ls, k.from, k.first - 1);
      SegmentIs(t, off, u, ls, k.first - 1);
    } else {
      NoPieces(t, line);
    }
    assert BeforeAt(t, scopeStart, off + ls[k.from].0, hitStart, o.before, line);
  }

  /** Unclipped, a side counts as many lines as requested exactly when the scan holds that many around the hit. */
  lemma {:induction false} EnoughLines(t: seq<Byte>, off: nat, u: seq<Byte>, ls: seq<Span>, k: Choice, o: Options, hitStart: nat, hitLast: nat)
    requires off <= hitStart <= hitLast && Sliced(t, off, u, ls) && Chosen(ls, hitStart - off, hitLast - off, o, k)
    ensures CountBefore(ls, off, k.first, off + ls[k.from].0) >= o.before <==> k.first >= o.before
    ensures CountAfter(ls, off, k.last + 1, off + ls[k.upTo].1) >= o.after <==> k.last + o.after < |ls|
  {
    hide Sliced, CountBefore, CountAfter;
    CountBeforeFrom(t, off, u, ls, k.from, k.first);
    CountAfterUpTo(t, off, u, ls, k.last + 1, k.upTo);
  }

  lemma {:induction false} NoLfPart(t: seq<Byte>, a: nat, b: nat, p: nat)
    requires NoLf(t, a, b) && p <= b
    ensures NoLf(t, a, p)
  {
  }

  lemma {:induction false} NoPieces(t: seq<Byte>, a: nat)
    requires a <= |t|
    ensures Pieces(t, a, a) == 0
  {
  }

  lemma {:induction false} CompleteAfter(t: seq<Byte>, off: nat, u: seq<Byte>, ls: seq<Span>, k: Choice, o: Options, scopeEnd: nat, hitStart: nat, hitEnd: nat)
    requires off <= hitStart < hitEnd <= |t| && Sliced(t, off, u, ls) && Chosen(ls, hitStart - off, hitEnd - 1 - off, o, k)
    requires CountAfter(ls, off, k.last + 1, off + ls[k.upTo].1) >= o.after
    requires LineStops(t, scopeEnd, off + ls[k.upTo].1)
    ensures HoldsAfter(t, scopeEnd, off + ls[k.upTo].1, hitEnd, o.after)
  {
    hide Sliced, Pieces, NoLf;
    SliceFits(t, off, u, ls);
    var line := off + ls[k.last].1;
    CountAfterUpTo(t, off, u, ls, k.last + 1, k.upTo);
    SegmentIs(t, off, u, ls, k.last);
    SegmentIs(t, off, u, ls, k.upTo);
    SegmentsAscend(t, off, u, ls, k.last, k.upTo);
    NoLfTail(t, off + ls[k.last].0, line - 1, hitEnd - 1);
    if k.last < k.upTo { PiecesAre(t, off, u, ls, k.last + 1, k.upTo); } else { NoPieces(t, line); }
    assert AfterAt(t, scopeEnd, off + ls[k.upTo].1, hitEnd, o.after, line);
  }

  lemma {:induction false} NoLfTail(t: seq<Byte>, a: nat, b: nat, p: nat)
    requires NoLf(t, a, b) && a <= p
    ensures NoLf(t, p, b)
  {
  }

  /** Everything a reported window guarantees. */
  ghost predicate ViewOk(c: Container, scopeStart: nat, scopeEnd: nat, hitStart: nat, hitEnd: nat, o: Options, v: View)
    requires c.Valid()
  {
    && ScanOk(c, scopeStart, scopeEnd, hitStart, hitEnd, o, v.scanStart, v.scanEnd)
    && v.scanStart <= v.start <= hitStart && hitEnd <= v.end <= v.scanEnd
    && v.bytes == c.text[v.start..v.end]
    && |v.bytes| <= o.excerpt
    && (v.beforeStop.Complete? ==> HoldsBefore(c.text, scopeStart, v.start, hitStart, o.before))
    && (v.afterStop.Complete? ==> HoldsAfter(c.text, scopeEnd, v.end, hitEnd, o.after))
    && (v.beforeStop.ScopeBoundary? ==> v.start == scopeStart && v.beforeReturned < o.before)
    && (v.afterStop.ScopeBoundary? ==> v.end == scopeEnd && v.afterReturned < o.after)
    && (v.leading <==> !StartKnown(c.text, scopeStart, v.scanStart, v.start))
    && (v.trailing <==> !LineStops(c.text, scopeEnd, v.end))
  }

  /** The excerpt's start is known to begin a line: the scope's start, or after an LF inside the scan. */
  predicate StartKnown(t: seq<Byte>, scopeStart: nat, scanStart: nat, start: nat) {
    start == scopeStart || (scanStart < start && LineBegins(t, scopeStart, start))
  }

  /** The wanted range: the chosen segments, in text positions. */
  ghost predicate Wanted(t: seq<Byte>, off: nat, u: seq<Byte>, ls: seq<Span>, hitStart: nat, hitEnd: nat, o: Options, k: Choice, start: nat, end: nat) {
    && off <= hitStart < hitEnd <= off + |u| <= |t|
    && Sliced(t, off, u, ls) && Chosen(ls, hitStart - off, hitEnd - 1 - off, o, k)
    && start == off + ls[k.from].0 && end == off + ls[k.upTo].1
    && off <= start <= hitStart && hitEnd <= end <= off + |u|
  }

  method ChooseSegments(scanned: seq<Byte>, scanStart: U64, hitStart: U64, hitEnd: U64, o: Options, ghost t: seq<Byte>)
    returns (ls: seq<Span>, k: Choice, wantStart: U64, wantEnd: U64)
    requires scanStart <= hitStart < hitEnd <= scanStart + |scanned| <= |t| <= U64_MAX && scanned == t[scanStart..scanStart + |scanned|]
    ensures Wanted(t, scanStart, scanned, ls, hitStart, hitEnd, o, k, wantStart, wantEnd)
  {
    hide LinesFrom;
    ls := Segments(scanned);
    assert Sliced(t, scanStart, scanned, ls);
    hide Sliced;
    var first := SegmentOf(ls, hitStart - scanStart, t, scanStart, scanned);
    var last := SegmentOf(ls, hitEnd - 1 - scanStart, t, scanStart, scanned);
    OrderedHolders(t, scanStart, scanned, ls, first, last, hitStart - scanStart, hitEnd - 1 - scanStart);
    k := Choice(first, last, SaturatingSub(first, o.before), Min(last + o.after, |ls| - 1));
    SegmentsAscend(t, scanStart, scanned, ls, k.from, first);
    SegmentsAscend(t, scanStart, scanned, ls, last, k.upTo);
    SegmentIs(t, scanStart, scanned, ls, k.upTo);
    wantStart, wantEnd := scanStart + ls[k.from].0, scanStart + ls[k.upTo].1;
  }

  /** The stop reasons and fragment flags of an excerpt inside the wanted range. */
  method Report(scanned: seq<Byte>, scanStart: U64, scopeStart: U64, scopeEnd: U64, hitStart: U64, hitEnd: U64, o: Options,
                ls: seq<Span>, k: Choice, wantStart: U64, wantEnd: U64, start: U64, end: U64, ghost t: seq<Byte>)
    returns (v: View)
    requires |t| <= U64_MAX && Wanted(t, scanStart, scanned, ls, hitStart, hitEnd, o, k, wantStart, wantEnd)
    requires scanned == t[scanStart..scanStart + |scanned|] && scopeStart <= scanStart && scanStart + |scanned| <= scopeEnd
    requires wantStart <= start <= hitStart && hitEnd <= end <= wantEnd
    ensures v.start == start && v.end == end && v.scanStart == scanStart && v.scanEnd == scanStart + |scanned|
    ensures v.bytes == t[start..end]
    ensures v.beforeStop.Complete? ==> HoldsBefore(t, scopeStart, start, hitStart, o.before)
    ensures v.afterStop.Complete? ==> HoldsAfter(t, scopeEnd, end, hitEnd, o.after)
    ensures v.beforeReturned == CountBefore(ls, scanStart, k.first, start) && v.afterReturned == CountAfter(ls, scanStart, k.last + 1, end)
    ensures v.beforeStop == if start > wantStart || v.leading || (v.beforeReturned < o.before && start != scopeStart) then Budget
                            else if v.beforeReturned < o.before then ScopeBoundary else Complete
    ensures v.afterStop == if end < wantEnd || v.trailing || (v.afterReturned < o.after && end != scopeEnd) then Budget
                           else if v.afterReturned < o.after then ScopeBoundary else Complete
    ensures v.leading <==> !StartKnown(t, scopeStart, scanStart, start)
    ensures v.trailing <==> !LineStops(t, scopeEnd, end)
  {
    hide Sliced, HoldsBefore, HoldsAfter, CountBefore, CountAfter;
    var beforeReturned := CountBefore(ls, scanStart, k.first, start);
    var afterReturned := CountAfter(ls, scanStart, k.last + 1, end);
    SliceOfSlice(t, scanStart, scanStart + |scanned|, start, end);
    EdgeByte(t, scanStart, scanStart + |scanned|, scanned, start);
    EdgeByte(t, scanStart, scanStart + |scanned|, scanned, end);
    var leading := start > scopeStart && (start == scanStart || scanned[start - scanStart - 1] != LF);
    var trailing := end < scopeEnd && scanned[end - scanStart - 1] != LF;
    var beforeStop := StopReason(o.before, beforeReturned, start > wantStart, start == scopeStart, leading);
    var afterStop := StopReason(o.after, afterReturned, end < wantEnd, end == scopeEnd, trailing);
    if beforeStop.Complete? { CompleteBefore(t, scanStart, scanned, ls, k, o, scopeStart, hitStart, hitEnd - 1); }
    if afterStop.Complete? { CompleteAfter(t, scanStart, scanned, ls, k, o, scopeEnd, hitStart, hitEnd); }
    v := View(start, end, scanned[start - scanStart..end - scanStart], scanStart, scanStart + |scanned|,
              beforeReturned, beforeStop, afterReturned, afterStop, leading, trailing);
  }

  /** The excerpt of a scanned range: as long as the cap and the wanted lines allow. */
  method Excerpt(c: Container, scanned: seq<Byte>, scanStart: U64, scanEnd: U64, scopeStart: U64, scopeEnd: U64, hitStart: U64, hitEnd: U64, o: Options)
    returns (v: View, ghost wantStart: nat, ghost wantEnd: nat)
    requires c.Valid() && ScanOk(c, scopeStart, scopeEnd, hitStart, hitEnd, o, scanStart, scanEnd)
    requires scanned == c.text[scanStart..scanEnd] && hitEnd - hitStart <= o.excerpt
    ensures v.scanStart == scanStart && v.scanEnd == scanEnd && ViewOk(c, scopeStart, scopeEnd, hitStart, hitEnd, o, v)
    ensures exists ls, k :: Wanted(c.text, scanStart, scanned, ls, hitStart, hitEnd, o, k, wantStart, wantEnd)
    ensures |v.bytes| == Min(o.excerpt, wantEnd - wantStart)
  {
    hide Affordable, Tiles, HoldsBefore, HoldsAfter, Wanted;
    TextFits(c);
    var ls, k, ws, we := ChooseSegments(scanned, scanStart, hitStart, hitEnd, o, c.text);
    wantStart, wantEnd := ws, we;
    WantedRange(c.text, scanStart, scanned, ls, hitStart, hitEnd, o, k, ws, we);
    var start, end := LimitExcerpt(ws, we, hitStart, hitEnd, o.excerpt);
    v := Report(scanned, scanStart, scopeStart, scopeEnd, hitStart, hitEnd, o, ls, k, ws, we, start, end, c.text);
  }

  lemma {:induction false} WantedRange(t: seq<Byte>, off: nat, u: seq<Byte>, ls: seq<Span>, hitStart: nat, hitEnd: nat, o: Options, k: Choice, start: nat, end: nat)
    requires Wanted(t, off, u, ls, hitStart, hitEnd, o, k, start, end)
    ensures off <= start <= hitStart && hitEnd <= end <= off + |u| <= |t|
  {
  }

  lemma {:induction false} EdgeByte(t: seq<Byte>, lo: nat, hi: nat, u: seq<Byte>, p: nat)
    requires lo <= p <= hi <= |t| && u == t[lo..hi]
    ensures p > lo ==> u[p - lo - 1] == t[p - 1]
  {
  }

  lemma {:induction false} OrderedHolders(t: seq<Byte>, off: nat, u: seq<Byte>, ls: seq<Span>, i: nat, j: nat, p: nat, q: nat)
    requires Sliced(t, off, u, ls) && i < |ls| && j < |ls| && p <= q && ls[i].0 <= p < ls[i].1 && ls[j].0 <= q < ls[j].1
    ensures i <= j
  {
    hide Sliced;
    if j < i { SegmentsAscend(t, off, u, ls, j, i); }
  }

  /** The compressed sizes of the chunks of a range sum to a u64. */
  ghost predicate CompressedFits(c: Container, start: nat, end: nat)
    requires c.Valid() && start < end <= |c.text|
  {
    RangeChunks(c, start, end);
    SpanCompressed(c.entries, FirstChunk(c, start), PastChunk(c, end)) <= U64_MAX
  }

  /**
   * The whole window: one affordable read, then an excerpt of it. It succeeds exactly when the hit
   * fits the scan and excerpt caps, is affordable, and the read's compressed counter does not overflow.
   */
  method Window(c: Container, scopeStart: U64, scopeEnd: U64, hitStart: U64, hitEnd: U64, o: Options)
    returns (r: Result<View>, ghost scanStart: nat, ghost scanEnd: nat, ghost wantStart: nat, ghost wantEnd: nat)
    requires c.Valid() && scopeStart <= hitStart < hitEnd && hitEnd <= scopeEnd <= |c.text|
    ensures scanStart < scanEnd <= |c.text|
    ensures r.Ok? <==> && hitEnd - hitStart <= o.scan && hitEnd - hitStart <= o.excerpt
                       && Affordable(c, hitStart, hitEnd, o) && CompressedFits(c, scanStart, scanEnd)
    ensures hitEnd - hitStart <= o.scan && hitEnd - hitStart <= o.excerpt && Affordable(c, hitStart, hitEnd, o) ==>
              exists s: nat :: Extreme(c, scopeStart, scopeEnd, hitStart, hitEnd, o, scanStart, scanEnd, s)
    ensures r.Ok? ==> r.value.scanStart == scanStart && r.value.scanEnd == scanEnd
    ensures r.Ok? ==> ViewOk(c, scopeStart, scopeEnd, hitStart, hitEnd, o, r.value)
    ensures r.Ok? ==> exists ls, k :: Wanted(c.text, scanStart, c.text[scanStart..scanEnd], ls, hitStart, hitEnd, o, k, wantStart, wantEnd)
    ensures r.Ok? ==> |r.value.bytes| == Min(o.excerpt, wantEnd - wantStart)
  {
    hide Affordable, Tiles, ViewOk, Extreme, Wanted, FirstChunk, PastChunk, TouchSpan, CompressedFits;
    scanStart, scanEnd, wantStart, wantEnd := hitStart, hitEnd, hitStart, hitEnd;
    if hitEnd - hitStart > o.scan || hitEnd - hitStart > o.excerpt { return Err, scanStart, scanEnd, wantStart, wantEnd; }
    var scan := ScanRange(c, scopeStart, scopeEnd, hitStart, hitEnd, o);
    if scan.Err? { return Err, scanStart, scanEnd, wantStart, wantEnd; }
    var (start, end) := scan.value;
    scanStart, scanEnd := start, end;
    var cache := new ChunkDecodeCache();
    ReadSucceeds(c, start, end);
    var scanned := ReadRangeCached(c, start, end - start, cache);
    if scanned.Err? { return Err, scanStart, scanEnd, wantStart, wantEnd; }
    var v;
    v, wantStart, wantEnd := Excerpt(c, scanned.value, start, end, scopeStart, scopeEnd, hitStart, hitEnd, o);
    return Ok(v), scanStart, scanEnd, wantStart, wantEnd;
  }

  /** A read through a fresh cache fails exactly when the compressed counter overflows. */
  lemma {:induction false} ReadSucceeds(c: Container, start: nat, end: nat)
    requires c.Valid() && start < end <= |c.text|
    ensures FirstChunk(c, start) <= PastChunk(c, end) <= |c.entries|
    ensures TouchSpan(c, EMPTY_CACHE, FirstChunk(c, start), PastChunk(c, end)).Ok? <==> CompressedFits(c, start, end)
  {
    hide FirstChunk, PastChunk, TouchSpan, SpanCompressed, SpanBytes, Tiles;
    RangeChunks(c, start, end);
    var a, b := FirstChunk(c, start), PastChunk(c, end);
    TextFits(c);
    SpanBytesFit(c, a, b);
    ManyChunksManyBytes(c.entries, |c.text|, b - 1);
    if CompressedFits(c, start, end) { TouchSpanFits(c, EMPTY_CACHE, a, b); }
    if TouchSpan(c, EMPTY_CACHE, a, b).Ok? { TouchSpanCompressed(c, EMPTY_CACHE, a, b); }
  }

  /** The one read of a window decodes within both physical limits. */
  lemma {:induction false} ReadWithinLimits(c: Container, start: nat, end: nat, o: Options)
    requires c.Valid() && start < end <= |c.text| && Affordable(c, start, end, o)
    requires FirstChunk(c, start) <= PastChunk(c, end) <= |c.entries|
    requires TouchSpan(c, EMPTY_CACHE, FirstChunk(c, start), PastChunk(c, end)).Ok?
    ensures TouchSpan(c, EMPTY_CACHE, FirstChunk(c, start), PastChunk(c, end)).value.bytes <= o.physical
    ensures TouchSpan(c, EMPTY_CACHE, FirstChunk(c, start), PastChunk(c, end)).value.chunks <= o.chunks
  {
    hide TouchSpan, FirstChunk, PastChunk, Tiles, SpanBytes;
    TouchSpanCost(c, EMPTY_CACHE, FirstChunk(c, start), PastChunk(c, end));
  }
}
