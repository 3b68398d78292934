/**
 * Verification of candidate granules against original bytes: a run over the
 * candidates under four limits, reading through the one-entry chunk cache.
 */
module Verification {
  import opened Bytes
  import opened ChunkTable
  import opened ChunkCache
  import opened KeySets
  import opened Tokens
  import opened TokenMatch
  import TokenMeaning
  import opened Ngrams

  datatype SearchGranule = SearchGranule(
    granuleId: U64, logicalOffset: U64, byteLength: U64, chunkStart: U64, chunkEnd: U64,
    firstLine: Option<U64>, lineCount: Option<U64>)
  {
    function End(): nat { logicalOffset + byteLength }
  }

  datatype SearchHit = SearchHit(logicalOffset: nat, byteLength: int, chunkStart: U64, chunkEnd: U64)

  datatype Query = TokenQuery(keys: seq<Key>) | SubstringQuery(bytes: seq<Byte>)

  datatype Limits = Limits(maxDecoded: U64, maxBytes: U64, maxChunks: U64, maxResults: U64)

  /** The granule is a nonempty range of the text and names exactly the chunks it intersects. */
  ghost predicate GranuleOk(c: Container, g: SearchGranule) {
    && 0 < g.byteLength && g.End() <= |c.text|
    && g.chunkStart == FirstChunk(c, g.logicalOffset)
    && g.chunkEnd == PastChunk(c, g.End())
  }

  /** `validate_granule_chunk_span` decides it. */
  method ValidateGranuleChunkSpan(c: Container, g: SearchGranule) returns (ok: bool)
    requires c.Valid()
    ensures ok <==> GranuleOk(c, g)
  {
    if 0 < g.byteLength && g.End() <= |c.text| { RangeChunks(c, g.logicalOffset, g.End()); }
    if g.chunkStart >= g.chunkEnd || g.chunkEnd > |c.entries| { return false; }
    var end := CheckedAdd(g.logicalOffset, g.byteLength);
    if end.Err? { return false; }
    if g.byteLength == 0 || end.value > |c.text| { return false; }
    var span := ChunkSpanForRange(c.entries, g.logicalOffset, end.value, |c.text|);
    return span == Ok((g.chunkStart, g.chunkEnd));
  }

  // ----- what a granule contributes -----

  function Spans(q: Query, bytes: seq<Byte>, left: bool, right: bool): seq<Match> {
    match q
    case TokenQuery(keys) => GranuleSpans(bytes, keys, left, right, 0)
    case SubstringQuery(query) => Occurrences(bytes, query, 0)
  }

  method SpansFor(q: Query, bytes: seq<Byte>, limit: nat, left: bool, right: bool) returns (spans: seq<Match>)
    ensures spans == Take(Spans(q, bytes, left, right), limit)
  {
    match q
    case TokenQuery(keys) => spans := VerifiedSpans(bytes, keys, limit, left, right);
    case SubstringQuery(query) => spans := SubstringSpans(bytes, query, limit);
  }

  /** The byte in front of the granule continues a token into it. */
  predicate LeftContinues(c: Container, q: Query, g: SearchGranule) {
    q.TokenQuery? && TokenAt(c.text, g.logicalOffset - 1)
  }

  /** The granule ends inside the text with a token byte, so the next byte must be read. */
  predicate NeedsNext(c: Container, q: Query, g: SearchGranule) {
    q.TokenQuery? && TokenAt(c.text, g.End() - 1) && g.End() < |c.text|
  }

  predicate RightContinues(c: Container, q: Query, g: SearchGranule) {
    NeedsNext(c, q, g) && TokenAt(c.text, g.End())
  }

  function GranuleMatches(c: Container, q: Query, g: SearchGranule): seq<Match>
    requires g.End() <= |c.text|
  {
    Spans(q, c.text[g.logicalOffset..g.End()], LeftContinues(c, q, g), RightContinues(c, q, g))
  }

  /** Matches as hits at original offsets. */
  function HitsOf(g: SearchGranule, ms: seq<Match>): (hits: seq<SearchHit>)
    ensures |hits| == |ms|
    ensures forall i :: 0 <= i < |ms| ==> hits[i] == SearchHit(g.logicalOffset + ms[i].start, ms[i].end - ms[i].start, g.chunkStart, g.chunkEnd)
  {
    seq(|ms|, i requires 0 <= i < |ms| => SearchHit(g.logicalOffset + ms[i].start, ms[i].end - ms[i].start, g.chunkStart, g.chunkEnd))
  }

  function GranuleHits(c: Container, q: Query, g: SearchGranule): seq<SearchHit>
    requires g.End() <= |c.text|
  {
    HitsOf(g, GranuleMatches(c, q, g))
  }

  ghost predicate AllOk(c: Container, gs: seq<SearchGranule>) { forall i :: 0 <= i < |gs| ==> GranuleOk(c, gs[i]) }

  /** All hits of all candidates, in order. */
  ghost function FullHits(c: Container, q: Query, gs: seq<SearchGranule>): seq<SearchHit>
    requires AllOk(c, gs)
  {
    if gs == [] then [] else GranuleHits(c, q, gs[0]) + FullHits(c, q, gs[1..])
  }

  // ----- the run under limits -----

  /** Hits found, logical bytes read, cache with physical counters, and the cap that stopped the run. */
  datatype Progress = Progress(hits: seq<SearchHit>, decoded: U64, cache: CacheState, stop: Option<Cap>)

  const START := Progress([], 0, EMPTY_CACHE, None)

  /** A read of `[start, end)` charged against the limits, refused before it would exceed one. */
  ghost function Charge(c: Container, start: nat, end: nat, lim: Limits, p: Progress): Result<Progress>
    requires c.Valid() && start < end <= |c.text|
  {
    RangeChunks(c, start, end);
    if p.decoded + (end - start) > U64_MAX then Err
    else if p.decoded + (end - start) > lim.maxDecoded then Ok(p.(stop := Some(DecodedBytes)))
    else match SpanLimitFor(c.entries, p.cache, FirstChunk(c, start), PastChunk(c, end), lim.maxBytes, lim.maxChunks)
      case Err => Err
      case Ok(Some(cap)) => Ok(p.(stop := Some(cap)))
      case Ok(None) =>
        match TouchSpan(c, p.cache, FirstChunk(c, start), PastChunk(c, end))
        case Err => Err
        case Ok(cache) => Ok(p.(decoded := p.decoded + (end - start), cache := cache))
  }

  /** A token query also reads the byte in front. */
  function ReadStart(q: Query, g: SearchGranule): nat {
    if q.TokenQuery? then SaturatingSub(g.logicalOffset, 1) else g.logicalOffset
  }

  /** The granule's spans, at most as many as results remain. */
  function Collect(c: Container, q: Query, g: SearchGranule, lim: Limits, p: Progress): Progress
    requires g.End() <= |c.text|
  {
    var found := Take(GranuleHits(c, q, g), SaturatingSub(lim.maxResults, |p.hits|));
    var hits := p.hits + found;
    p.(hits := hits, stop := if found != [] && |hits| >= lim.maxResults then Some(SearchResults) else None)
  }

  /** The granule's bytes and, where a token might continue, the byte after them. */
  ghost function ReadGranule(c: Container, q: Query, g: SearchGranule, lim: Limits, p: Progress): Result<Progress>
    requires c.Valid() && GranuleOk(c, g)
  {
    match Charge(c, ReadStart(q, g), g.End(), lim, p)
    case Err => Err
    case Ok(read) =>
      if read.stop.Some? || !NeedsNext(c, q, g) then Ok(read) else Charge(c, g.End(), g.End() + 1, lim, read)
  }

  ghost function VerifyOne(c: Container, q: Query, g: SearchGranule, lim: Limits, p: Progress): Result<Progress>
    requires c.Valid() && GranuleOk(c, g)
  {
    match ReadGranule(c, q, g, lim, p)
    case Err => Err
    case Ok(read) => if read.stop.Some? then Ok(read) else Ok(Collect(c, q, g, lim, read))
  }

  ghost function VerifyAll(c: Container, q: Query, gs: seq<SearchGranule>, lim: Limits, p: Progress): Result<Progress>
    requires c.Valid() && AllOk(c, gs)
    decreases |gs|
  {
    if gs == [] || p.stop.Some? then Ok(p)
    else match VerifyOne(c, q, gs[0], lim, p)
      case Err => Err
      case Ok(next) => VerifyAll(c, q, gs[1..], lim, next)
  }

  /** Where an unstopped run stands: within every limit, with room for another hit. */
  ghost predicate Within(c: Container, lim: Limits, p: Progress)
    requires c.Valid()
  {
    && p.decoded <= lim.maxDecoded
    && p.cache.bytes <= lim.maxBytes
    && p.cache.chunks <= lim.maxChunks
    && |p.hits| <= lim.maxResults
    && (p.stop.None? ==> |p.hits| < lim.maxResults)
    && Consistent(c, p.cache)
  }

  lemma {:induction false} ChargeWithin(c: Container, start: nat, end: nat, lim: Limits, p: Progress)
    requires c.Valid() && start < end <= |c.text| && Within(c, lim, p) && p.stop.None?
    requires Charge(c, start, end, lim, p).Ok?
    ensures Within(c, lim, Charge(c, start, end, lim, p).value)
    ensures Charge(c, start, end, lim, p).value.hits == p.hits
  {
    hide TouchSpan, SpanLimit, FirstChunk, PastChunk, Consistent;
    RangeChunks(c, start, end);
    var a, b := FirstChunk(c, start), PastChunk(c, end);
    PreflightExact(c, p.cache, a, b, lim.maxBytes, lim.maxChunks);
    if TouchSpan(c, p.cache, a, b).Ok? { TouchSpanCost(c, p.cache, a, b); }
  }

  lemma {:induction false} CollectWithin(c: Container, q: Query, g: SearchGranule, lim: Limits, p: Progress)
    requires c.Valid() && g.End() <= |c.text| && Within(c, lim, p) && p.stop.None?
    ensures Within(c, lim, Collect(c, q, g, lim, p))
    ensures Collect(c, q, g, lim, p).hits <= p.hits + GranuleHits(c, q, g)
    ensures Collect(c, q, g, lim, p).stop.None? ==> Collect(c, q, g, lim, p).hits == p.hits + GranuleHits(c, q, g)
  {
    hide GranuleHits, Consistent;
  }

  /** One candidate keeps the run within its limits and adds a prefix of the candidate's hits. */
  lemma {:induction false} VerifyOneSound(c: Container, q: Query, g: SearchGranule, lim: Limits, p: Progress)
    requires c.Valid() && GranuleOk(c, g) && Within(c, lim, p) && p.stop.None?
    requires VerifyOne(c, q, g, lim, p).Ok?
    ensures Within(c, lim, VerifyOne(c, q, g, lim, p).value)
    ensures p.hits <= VerifyOne(c, q, g, lim, p).value.hits <= p.hits + GranuleHits(c, q, g)
    ensures VerifyOne(c, q, g, lim, p).value.stop.None? ==> VerifyOne(c, q, g, lim, p).value.hits == p.hits + GranuleHits(c, q, g)
  {
    hide Charge, Within, GranuleHits, Collect;
    ChargeWithin(c, ReadStart(q, g), g.End(), lim, p);
    var read := Charge(c, ReadStart(q, g), g.End(), lim, p).value;
    if read.stop.None? {
      if NeedsNext(c, q, g) {
        ChargeWithin(c, g.End(), g.End() + 1, lim, read);
        var next := Charge(c, g.End(), g.End() + 1, lim, read).value;
        if next.stop.None? { CollectWithin(c, q, g, lim, next); CollectKeeps(c, q, g, lim, next); }
      } else {
        CollectWithin(c, q, g, lim, read);
        CollectKeeps(c, q, g, lim, read);
      }
    }
  }

  lemma {:induction false} CollectKeeps(c: Container, q: Query, g: SearchGranule, lim: Limits, p: Progress)
    requires g.End() <= |c.text|
    ensures p.hits <= Collect(c, q, g, lim, p).hits
  {
  }

  lemma {:induction false} StartWithin(c: Container, lim: Limits)
    requires c.Valid() && lim.maxResults > 0
    ensures Within(c, lim, START)
  {
  }

  /**
   * A whole run never exceeds a limit, returns a prefix of the uncapped hits, and
   * without a stop reason returns them all.
   */
  lemma {:induction false} CappedRunIsPrefix(c: Container, q: Query, gs: seq<SearchGranule>, lim: Limits, p: Progress)
    requires c.Valid() && AllOk(c, gs) && Within(c, lim, p) && p.stop.None?
    requires VerifyAll(c, q, gs, lim, p).Ok?
    ensures Within(c, lim, VerifyAll(c, q, gs, lim, p).value)
    ensures p.hits <= VerifyAll(c, q, gs, lim, p).value.hits <= p.hits + FullHits(c, q, gs)
    ensures VerifyAll(c, q, gs, lim, p).value.stop.None? ==>
              VerifyAll(c, q, gs, lim, p).value.hits == p.hits + FullHits(c, q, gs)
    decreases |gs|
  {
    hide VerifyOne, Within, GranuleHits;
    if gs != [] {
      VerifyOneSound(c, q, gs[0], lim, p);
      var next := VerifyOne(c, q, gs[0], lim, p).value;
      var here, rest := GranuleHits(c, q, gs[0]), FullHits(c, q, gs[1..]);
      assert p.hits + FullHits(c, q, gs) == (p.hits + here) + rest;
      if next.stop.None? {
        CappedRunIsPrefix(c, q, gs[1..], lim, next);
      } else {
        assert VerifyAll(c, q, gs[1..], lim, next) == Ok(next);
      }
    }
  }

  // ----- raising limits -----

  predicate NoLarger(a: Limits, b: Limits) {
    a.maxDecoded <= b.maxDecoded && a.maxBytes <= b.maxBytes && a.maxChunks <= b.maxChunks && a.maxResults <= b.maxResults
  }

  lemma {:induction false} ChargeMonotone(c: Container, start: nat, end: nat, a: Limits, b: Limits, p: Progress)
    requires c.Valid() && start < end <= |c.text| && NoLarger(a, b) && p.stop.None?
    requires Charge(c, start, end, b, p).Ok?
    ensures Charge(c, start, end, a, p).Ok?
    ensures Charge(c, start, end, a, p).value.hits == p.hits
    ensures Charge(c, start, end, a, p).value.stop.None? ==> Charge(c, start, end, b, p) == Charge(c, start, end, a, p)
  {
    hide TouchSpan, SpanLimit, FirstChunk, PastChunk;
    RangeChunks(c, start, end);
    PreflightMonotone(c.entries, p.cache.chunkId, p.cache.bytes, p.cache.chunks, FirstChunk(c, start), PastChunk(c, end),
                      a.maxBytes, a.maxChunks, b.maxBytes, b.maxChunks);
  }

  lemma {:induction false} CollectMonotone(c: Container, q: Query, g: SearchGranule, a: Limits, b: Limits, p: Progress)
    requires g.End() <= |c.text| && NoLarger(a, b) && |p.hits| < a.maxResults
    ensures Collect(c, q, g, a, p).hits <= Collect(c, q, g, b, p).hits
    ensures Collect(c, q, g, a, p).stop.None? ==> Collect(c, q, g, b, p) == Collect(c, q, g, a, p)
  {
    hide GranuleHits;
  }

  lemma {:induction false} VerifyOneMonotone(c: Container, q: Query, g: SearchGranule, a: Limits, b: Limits, p: Progress)
    requires c.Valid() && GranuleOk(c, g) && NoLarger(a, b) && p.stop.None? && |p.hits| < a.maxResults
    requires VerifyOne(c, q, g, b, p).Ok?
    ensures VerifyOne(c, q, g, a, p).Ok?
    ensures VerifyOne(c, q, g, a, p).value.hits <= VerifyOne(c, q, g, b, p).value.hits
    ensures VerifyOne(c, q, g, a, p).value.stop.None? ==> VerifyOne(c, q, g, b, p) == VerifyOne(c, q, g, a, p)
  {
    hide Charge, GranuleHits, Collect;
    ChargeMonotone(c, ReadStart(q, g), g.End(), a, b, p);
    ChargeMonotone(c, ReadStart(q, g), g.End(), b, b, p);
    var read := Charge(c, ReadStart(q, g), g.End(), a, p).value;
    var readB := Charge(c, ReadStart(q, g), g.End(), b, p).value;
    if readB.stop.None? {
      CollectKeeps(c, q, g, b, readB);
      if NeedsNext(c, q, g) {
        ChargeMonotone(c, g.End(), g.End() + 1, b, b, readB);
        CollectKeeps(c, q, g, b, Charge(c, g.End(), g.End() + 1, b, readB).value);
      }
    }
    if read.stop.None? {
      if NeedsNext(c, q, g) {
        ChargeMonotone(c, g.End(), g.End() + 1, a, b, read);
        var next := Charge(c, g.End(), g.End() + 1, a, read).value;
        if next.stop.None? { CollectMonotone(c, q, g, a, b, next); }
      } else {
        CollectMonotone(c, q, g, a, b, read);
      }
    }
  }

  /** Raising limits never loses a hit: the smaller run's hits are a prefix of the larger run's. */
  lemma {:induction false} RaisingLimitsKeepsHits(c: Container, q: Query, gs: seq<SearchGranule>, a: Limits, b: Limits, p: Progress)
    requires c.Valid() && AllOk(c, gs) && NoLarger(a, b) && p.stop.None? && Within(c, a, p)
    requires VerifyAll(c, q, gs, b, p).Ok?
    ensures VerifyAll(c, q, gs, a, p).Ok?
    ensures VerifyAll(c, q, gs, a, p).value.hits <= VerifyAll(c, q, gs, b, p).value.hits
    ensures VerifyAll(c, q, gs, a, p).value.stop.None? ==> VerifyAll(c, q, gs, b, p) == VerifyAll(c, q, gs, a, p)
    decreases |gs|
  {
    hide VerifyOne, GranuleHits, GranuleOk;
    if gs != [] {
      assert |p.hits| < a.maxResults;
      VerifyOneMonotone(c, q, gs[0], a, b, p);
      var small, large := VerifyOne(c, q, gs[0], a, p).value, VerifyOne(c, q, gs[0], b, p).value;
      VerifyOneSound(c, q, gs[0], a, p);
      if small.stop.None? {
        RaisingLimitsKeepsHits(c, q, gs[1..], a, b, small);
      } else {
        WithinMore(c, a, b, p);
        VerifyOneSound(c, q, gs[0], b, p);
        assert VerifyAll(c, q, gs[1..], a, small) == Ok(small);
        if large.stop.None? { CappedRunIsPrefix(c, q, gs[1..], b, large); }
        else { assert VerifyAll(c, q, gs[1..], b, large) == Ok(large); }
      }
    }
  }

  lemma {:induction false} WithinMore(c: Container, a: Limits, b: Limits, p: Progress)
    requires c.Valid() && NoLarger(a, b) && Within(c, a, p)
    ensures Within(c, b, p)
  {
  }

  // ----- exactly which limits are reached -----

  /** The run's final counters and hits leave room in the limits. */
  predicate Suffices(lim: Limits, p: Progress) {
    p.decoded <= lim.maxDecoded && p.cache.bytes <= lim.maxBytes && p.cache.chunks <= lim.maxChunks && |p.hits| < lim.maxResults
  }

  /** Counters and hits only grow. */
  predicate NoEarlier(p: Progress, q: Progress) {
    p.decoded <= q.decoded && p.cache.bytes <= q.cache.bytes && p.cache.chunks <= q.cache.chunks && |p.hits| <= |q.hits|
  }

  lemma {:induction false} ChargeSuffices(c: Container, start: nat, end: nat, lim: Limits, big: Limits, p: Progress)
    requires c.Valid() && start < end <= |c.text| && Consistent(c, p.cache) && p.stop.None?
    requires Charge(c, start, end, big, p).Ok? && Charge(c, start, end, big, p).value.stop.None?
    ensures NoEarlier(p, Charge(c, start, end, big, p).value) && Consistent(c, Charge(c, start, end, big, p).value.cache)
    ensures Charge(c, start, end, big, p).value.hits == p.hits
    ensures Suffices(lim, Charge(c, start, end, big, p).value) ==> Charge(c, start, end, lim, p) == Charge(c, start, end, big, p)
  {
    hide TouchSpan, SpanLimit, FirstChunk, PastChunk, Consistent, SpanBytes;
    RangeChunks(c, start, end);
    var a, b := FirstChunk(c, start), PastChunk(c, end);
    TouchSpanCost(c, p.cache, a, b);
    if Suffices(lim, Charge(c, start, end, big, p).value) { PreflightExact(c, p.cache, a, b, lim.maxBytes, lim.maxChunks); }
  }

  lemma {:induction false} CollectSuffices(c: Container, q: Query, g: SearchGranule, lim: Limits, big: Limits, p: Progress)
    requires g.End() <= |c.text| && |p.hits| < big.maxResults && Collect(c, q, g, big, p).stop.None?
    ensures NoEarlier(p, Collect(c, q, g, big, p)) && Collect(c, q, g, big, p).cache == p.cache
    ensures Suffices(lim, Collect(c, q, g, big, p)) ==> Collect(c, q, g, lim, p) == Collect(c, q, g, big, p)
  {
    hide GranuleHits;
  }

  lemma {:induction false} VerifyOneSuffices(c: Container, q: Query, g: SearchGranule, lim: Limits, big: Limits, p: Progress)
    requires c.Valid() && GranuleOk(c, g) && Consistent(c, p.cache) && p.stop.None? && |p.hits| < big.maxResults
    requires VerifyOne(c, q, g, big, p).Ok? && VerifyOne(c, q, g, big, p).value.stop.None?
    ensures NoEarlier(p, VerifyOne(c, q, g, big, p).value) && Consistent(c, VerifyOne(c, q, g, big, p).value.cache)
    ensures Suffices(lim, VerifyOne(c, q, g, big, p).value) ==> VerifyOne(c, q, g, lim, p) == VerifyOne(c, q, g, big, p)
  {
    hide Charge, Collect, GranuleHits, Consistent, Tiles;
    ChargeSuffices(c, ReadStart(q, g), g.End(), lim, big, p);
    var read := Charge(c, ReadStart(q, g), g.End(), big, p).value;
    if NeedsNext(c, q, g) {
      ChargeSuffices(c, g.End(), g.End() + 1, lim, big, read);
      CollectSuffices(c, q, g, lim, big, Charge(c, g.End(), g.End() + 1, big, read).value);
    } else {
      CollectSuffices(c, q, g, lim, big, read);
    }
  }

  lemma {:induction false} RunSuffices(c: Container, q: Query, gs: seq<SearchGranule>, lim: Limits, big: Limits, p: Progress)
    requires c.Valid() && AllOk(c, gs) && Within(c, big, p) && p.stop.None?
    requires VerifyAll(c, q, gs, big, p).Ok? && VerifyAll(c, q, gs, big, p).value.stop.None?
    ensures NoEarlier(p, VerifyAll(c, q, gs, big, p).value)
    ensures Suffices(lim, VerifyAll(c, q, gs, big, p).value) ==> VerifyAll(c, q, gs, lim, p) == VerifyAll(c, q, gs, big, p)
    decreases |gs|
  {
    hide VerifyOne, Tiles, GranuleOk;
    if gs != [] {
      VerifyOneSound(c, q, gs[0], big, p);
      var next := VerifyOne(c, q, gs[0], big, p).value;
      if next.stop.None? {
        VerifyOneSuffices(c, q, gs[0], lim, big, p);
        RunSuffices(c, q, gs[1..], lim, big, next);
      }
    }
  }

  /**
   * Of two runs over the same candidates, if the one with the larger limits is not stopped, the other
   * is not stopped exactly when those final counters fit its limits with room for one more hit.
   */
  lemma {:induction false} UnstoppedIffSuffices(c: Container, q: Query, gs: seq<SearchGranule>, lim: Limits, big: Limits)
    requires c.Valid() && AllOk(c, gs) && NoLarger(lim, big) && lim.maxResults > 0
    requires VerifyAll(c, q, gs, big, START).Ok? && VerifyAll(c, q, gs, big, START).value.stop.None?
    ensures VerifyAll(c, q, gs, lim, START).Ok?
    ensures VerifyAll(c, q, gs, lim, START).value.stop.None? <==> Suffices(lim, VerifyAll(c, q, gs, big, START).value)
  {
    hide VerifyAll, Tiles;
    StartWithin(c, lim);
    StartWithin(c, big);
    RaisingLimitsKeepsHits(c, q, gs, lim, big, START);
    RunSuffices(c, q, gs, lim, big, START);
    CappedRunIsPrefix(c, q, gs, lim, START);
  }

  // ----- limits that are never reached -----

  function SpanCompressed(entries: seq<ChunkEntry>, from: nat, past: nat): nat
    requires from <= past <= |entries|
    decreases |entries| - from
  {
    if from == past then 0 else entries[from].compressedSize + SpanCompressed(entries, from + 1, past)
  }

  lemma {:induction false} SpanCompressedPart(entries: seq<ChunkEntry>, from: nat, past: nat)
    requires from <= past <= |entries|
    ensures SpanCompressed(entries, from, past) <= SpanCompressed(entries, 0, |entries|)
    decreases from, |entries| - past
  {
    if from > 0 { SpanCompressedPart(entries, from - 1, past); }
    else if past < |entries| { SpanCompressedMore(entries, 0, past); SpanCompressedPart(entries, 0, past + 1); }
  }

  lemma {:induction false} SpanCompressedMore(entries: seq<ChunkEntry>, from: nat, past: nat)
    requires from <= past < |entries|
    ensures SpanCompressed(entries, from, past) <= SpanCompressed(entries, from, past + 1)
    decreases past - from
  {
    if from < past { SpanCompressedMore(entries, from + 1, past); }
  }

  lemma {:induction false} SpanBytesFit(c: Container, from: nat, past: nat)
    requires c.Valid() && from <= past <= |c.entries|
    ensures EndBefore(c.entries, from) + SpanBytes(c.entries, from, past) == EndBefore(c.entries, past) <= |c.text|
    decreases past - from
  {
    if past > 0 { TilesBelow(c.entries, |c.text|, past - 1); }
    if from < past {
      assert ChunkInPlace(c.entries, from);
      SpanBytesFit(c, from + 1, past);
    }
  }

  lemma {:induction false} TouchSpanFits(c: Container, s: CacheState, from: nat, past: nat)
    requires c.Valid() && from <= past <= |c.entries|
    requires s.bytes + SpanBytes(c.entries, from, past) <= U64_MAX && s.chunks + (past - from) <= U64_MAX
    requires s.compressed + SpanCompressed(c.entries, from, past) <= U64_MAX
    ensures TouchSpan(c, s, from, past).Ok?
    ensures TouchSpan(c, s, from, past).value.compressed <= s.compressed + SpanCompressed(c.entries, from, past)
    decreases past - from
  {
    if from < past {
      TilesBelow(c.entries, |c.text|, from);
      TouchSpanFits(c, Touch(c, s, c.entries[from]).value, from + 1, past);
    }
  }

  /** Without its first chunk cached, a span charges the compressed sizes of all its chunks. */
  lemma {:induction false} TouchSpanCompressed(c: Container, s: CacheState, from: nat, past: nat)
    requires c.Valid() && from <= past <= |c.entries| && s.chunkId != Some(from) && TouchSpan(c, s, from, past).Ok?
    ensures TouchSpan(c, s, from, past).value.compressed == s.compressed + SpanCompressed(c.entries, from, past)
    decreases past - from
  {
    if from < past {
      TilesBelow(c.entries, |c.text|, from);
      assert ChunkInPlace(c.entries, from);
      TouchSpanCompressed(c, Touch(c, s, c.entries[from]).value, from + 1, past);
    }
  }

  /** Room for a number of reads, each of which decodes at most the whole text. */
  ghost predicate Roomy(c: Container, lim: Limits, p: Progress, n: nat)
    requires c.Valid()
  {
    && Consistent(c, p.cache)
    && p.decoded + n * |c.text| <= lim.maxDecoded
    && p.cache.bytes + n * |c.text| <= lim.maxBytes
    && p.cache.chunks + n * |c.entries| <= lim.maxChunks
    && p.cache.compressed + n * SpanCompressed(c.entries, 0, |c.entries|) <= U64_MAX
  }

  lemma {:induction false} ChargeRoomy(c: Container, start: nat, end: nat, lim: Limits, p: Progress, n: nat)
    requires c.Valid() && start < end <= |c.text| && Roomy(c, lim, p, n) && n > 0 && p.stop.None?
    ensures Charge(c, start, end, lim, p).Ok?
    ensures Charge(c, start, end, lim, p).value.stop.None? && Charge(c, start, end, lim, p).value.hits == p.hits
    ensures Roomy(c, lim, Charge(c, start, end, lim, p).value, n - 1)
  {
    hide TouchSpan, SpanLimit, FirstChunk, PastChunk, Consistent, SpanBytes, SpanCompressed, Tiles;
    RangeChunks(c, start, end);
    var a, b := FirstChunk(c, start), PastChunk(c, end);
    OneRead(n, |c.text|);
    OneRead(n, |c.entries|);
    OneRead(n, SpanCompressed(c.entries, 0, |c.entries|));
    SpanBytesFit(c, a, b);
    SpanBytesFit(c, a + 1, b);
    SpanCompressedPart(c.entries, a, b);
    PreflightExact(c, p.cache, a, b, lim.maxBytes, lim.maxChunks);
    TouchSpanFits(c, p.cache, a, b);
    TouchSpanCost(c, p.cache, a, b);
  }

  lemma {:induction false} OneRead(n: nat, x: nat)
    requires n > 0
    ensures n * x == (n - 1) * x + x && (n - 1) * x >= 0
  {
  }

  lemma {:induction false} FewerReads(c: Container, lim: Limits, p: Progress, n: nat)
    requires c.Valid() && Roomy(c, lim, p, n) && n > 0
    ensures Roomy(c, lim, p, n - 1)
  {
    hide Consistent, SpanCompressed, Tiles;
    OneRead(n, |c.text|);
    OneRead(n, |c.entries|);
    OneRead(n, SpanCompressed(c.entries, 0, |c.entries|));
  }

  lemma {:induction false} VerifyOneRoomy(c: Container, q: Query, g: SearchGranule, lim: Limits, p: Progress, n: nat)
    requires c.Valid() && GranuleOk(c, g) && Roomy(c, lim, p, n) && n >= 2 && p.stop.None?
    requires |p.hits| + |GranuleHits(c, q, g)| < lim.maxResults
    ensures VerifyOne(c, q, g, lim, p).Ok? && VerifyOne(c, q, g, lim, p).value.stop.None?
    ensures VerifyOne(c, q, g, lim, p).value.hits == p.hits + GranuleHits(c, q, g)
    ensures Roomy(c, lim, VerifyOne(c, q, g, lim, p).value, n - 2)
  {
    hide Charge, Roomy, GranuleHits, Collect, Tiles;
    ChargeRoomy(c, ReadStart(q, g), g.End(), lim, p, n);
    var read := Charge(c, ReadStart(q, g), g.End(), lim, p).value;
    if NeedsNext(c, q, g) {
      ChargeRoomy(c, g.End(), g.End() + 1, lim, read, n - 1);
      CollectRoomy(c, q, g, lim, Charge(c, g.End(), g.End() + 1, lim, read).value, n - 2);
    } else {
      FewerReads(c, lim, read, n - 1);
      CollectRoomy(c, q, g, lim, read, n - 2);
    }
  }

  lemma {:induction false} CollectRoomy(c: Container, q: Query, g: SearchGranule, lim: Limits, p: Progress, n: nat)
    requires c.Valid() && g.End() <= |c.text| && Roomy(c, lim, p, n) && p.stop.None?
    requires |p.hits| + |GranuleHits(c, q, g)| < lim.maxResults
    ensures Collect(c, q, g, lim, p).stop.None? && Collect(c, q, g, lim, p).hits == p.hits + GranuleHits(c, q, g)
    ensures Roomy(c, lim, Collect(c, q, g, lim, p), n)
  {
    hide GranuleHits, Consistent, Tiles, SpanCompressed;
  }

  /** Limits with room for two reads of the whole text per candidate are never reached. */
  lemma {:induction false} RoomyRunIsUncapped(c: Container, q: Query, gs: seq<SearchGranule>, lim: Limits, p: Progress)
    requires c.Valid() && AllOk(c, gs) && p.stop.None? && Roomy(c, lim, p, 2 * |gs|)
    requires |p.hits| + |FullHits(c, q, gs)| < lim.maxResults
    ensures VerifyAll(c, q, gs, lim, p).Ok? && VerifyAll(c, q, gs, lim, p).value.stop.None?
    ensures VerifyAll(c, q, gs, lim, p).value.hits == p.hits + FullHits(c, q, gs)
    decreases |gs|
  {
    hide VerifyOne, GranuleHits, Roomy, Tiles;
    if gs != [] {
      VerifyOneRoomy(c, q, gs[0], lim, p, 2 * |gs|);
      RoomyRunIsUncapped(c, q, gs[1..], lim, VerifyOne(c, q, gs[0], lim, p).value);
    }
  }

  // ----- the loop -----

  /** Spans lie inside the decoded bytes. */
  lemma {:induction false} SpansFit(q: Query, bytes: seq<Byte>, left: bool, right: bool, m: Match)
    requires m in Spans(q, bytes, left, right)
    ensures m.start <= m.end <= |bytes|
  {
    hide GranuleSpans, Occurrences;
    match q
    case TokenQuery(keys) =>
      TokenSpansFit(keys, bytes, left, right, m);
    case SubstringQuery(query) =>
      if query == [] { NoQueryNoSpans(bytes); } else { OccurrencesExact(bytes, query, 0); }
  }

  lemma {:induction false} NoQueryNoSpans(bytes: seq<Byte>)
    ensures Occurrences(bytes, [], 0) == []
  {
  }

  lemma {:induction false} TokenSpansFit(keys: seq<Key>, bytes: seq<Byte>, left: bool, right: bool, m: Match)
    requires m in GranuleSpans(bytes, keys, left, right, 0)
    ensures m.start <= m.end <= |bytes|
  {
    hide *;
    var ls, lm := TokenMeaning.SpanLine(bytes, keys, left, right, 0, m);
    var le := Lines.LineEnd(bytes, ls);
    LineSpanFits(bytes[ls..le], keys, ls == 0 && left, le == |bytes| && right, lm);
  }

  lemma {:induction false} LineSpanFits(line: seq<Byte>, keys: seq<Key>, left: bool, right: bool, m: Match)
    requires m in LineSpans(line, keys, left, right)
    ensures m.start <= m.end <= |line|
  {
    hide LineMatches;
    TokenMeaning.LineMatchesSound(line, keys, left, right, 0);
    assert TokenMeaning.IsMatch(line, keys, left, right, m);
  }

  datatype ReadOutcome = Stopped(cap: Cap) | Read(bytes: seq<Byte>, decoded: U64)

  /** One charged read through the cache. */
  method ReadWithin(c: Container, start: U64, end: U64, chunkStart: U64, chunkEnd: U64, lim: Limits, decoded: U64, cache: ChunkDecodeCache, ghost hits: seq<SearchHit>)
    returns (r: Result<ReadOutcome>)
    requires c.Valid() && start < end <= |c.text| && Consistent(c, cache.Now())
    requires chunkStart == FirstChunk(c, start) && chunkEnd == PastChunk(c, end)
    modifies cache
    ensures match Charge(c, start, end, lim, Progress(hits, decoded, old(cache.Now()), None))
            case Err => r.Err?
            case Ok(p) =>
              && Consistent(c, p.cache) && cache.Now() == p.cache && p.hits == hits
              && (p.stop.Some? ==> p.decoded == decoded)
              && r == Ok(match p.stop case Some(cap) => Stopped(cap) case None => Read(c.text[start..end], p.decoded))
  {
    hide TouchSpan, SpanLimit, FirstChunk, PastChunk, Consistent, Tiles;
    RangeChunks(c, start, end);
    if decoded + (end - start) > U64_MAX { return Err; }
    var next := decoded + (end - start);
    if next > lim.maxDecoded { return Ok(Stopped(DecodedBytes)); }
    var cap := cache.SearchLimitForSpan(c.entries, chunkStart, chunkEnd, lim.maxBytes, lim.maxChunks);
    if cap.Err? { return Err; }
    if cap.value.Some? { return Ok(Stopped(cap.value.value)); }
    var bytes := ReadRangeCached(c, start, end - start, cache);
    if bytes.Err? { return Err; }
    return Ok(Read(bytes.value, next));
  }

  lemma {:induction false} TakeHits(g: SearchGranule, ms: seq<Match>, n: nat)
    ensures HitsOf(g, Take(ms, n)) == Take(HitsOf(g, ms), n)
  {
  }

  /** The hits of one candidate whose bytes have been read, up to the result limit. */
  method CollectHits(c: Container, q: Query, g: SearchGranule, original: seq<Byte>, left: bool, right: bool, lim: Limits, hits: seq<SearchHit>, ghost p: Progress)
    returns (r: Result<(seq<SearchHit>, Option<Cap>)>)
    requires g.End() <= |c.text| <= U64_MAX == 0xFFFF_FFFF_FFFF_FFFF && original == c.text[g.logicalOffset..g.End()] && p.hits == hits
    requires left == LeftContinues(c, q, g) && right == RightContinues(c, q, g)
    ensures r == Ok((Collect(c, q, g, lim, p).hits, Collect(c, q, g, lim, p).stop))
  {
    var remaining := SaturatingSub(lim.maxResults, |hits|);
    var spans := SpansFor(q, original, remaining, left, right);
    TakeHits(g, Spans(q, original, left, right), remaining);
    ghost var all := HitsOf(g, spans);
    CollectIs(c, q, g, lim, p, all);
    forall m | m in spans ensures g.logicalOffset + m.start <= U64_MAX { SpansFit(q, original, left, right, m); }
    hide *;
    r := AppendHits(g, spans, lim.maxResults, hits);
  }

  /** The push loop; it can reach the result limit only with its last span. */
  method AppendHits(g: SearchGranule, spans: seq<Match>, maxResults: U64, hits: seq<SearchHit>)
    returns (r: Result<(seq<SearchHit>, Option<Cap>)>)
    requires spans != [] ==> |hits| + |spans| <= maxResults
    requires forall m :: m in spans ==> g.logicalOffset + m.start <= U64_MAX
    ensures r == Ok((hits + HitsOf(g, spans), if spans != [] && |hits| + |spans| >= maxResults then Some(SearchResults) else None))
  {
    ghost var all := HitsOf(g, spans);
    hide *;
    var found := hits;
    AppendAll(hits, all);
    for k := 0 to |spans|
      invariant found == hits + all[..k] && (k > 0 ==> |found| < maxResults)
    {
      if g.logicalOffset + spans[k].start > U64_MAX { return Err; }
      var hit := SearchHit(g.logicalOffset + spans[k].start, spans[k].end - spans[k].start, g.chunkStart, g.chunkEnd);
      assert hit == all[k];
      AppendOne(hits, all, k);
      found := found + [hit];
      if |found| >= maxResults { return Ok((found, Some(SearchResults))); }
    }
    return Ok((found, None));
  }

  lemma {:induction false} AppendOne<T>(a: seq<T>, b: seq<T>, k: nat)
    requires k < |b|
    ensures a + b[..k] + [b[k]] == a + b[..k + 1]
    ensures k + 1 == |b| ==> a + b[..k + 1] == a + b
  {
  }

  lemma {:induction false} AppendAll<T>(a: seq<T>, b: seq<T>)
    ensures a + b[..|b|] == a + b && a + b[..0] == a
  {
  }

  lemma {:induction false} CollectIs(c: Container, q: Query, g: SearchGranule, lim: Limits, p: Progress, found: seq<SearchHit>)
    requires g.End() <= |c.text| && found == Take(GranuleHits(c, q, g), SaturatingSub(lim.maxResults, |p.hits|))
    ensures Collect(c, q, g, lim, p).hits == p.hits + found
    ensures Collect(c, q, g, lim, p).stop == if found != [] && |p.hits| + |found| >= lim.maxResults then Some(SearchResults) else None
    ensures found != [] ==> |p.hits| + |found| <= lim.maxResults
  {
    hide GranuleHits;
  }

  /** The decoded bytes without the byte read in front. */
  lemma {:induction false} WithoutFront(t: seq<Byte>, start: nat, off: nat, end: nat)
    requires start <= off <= end <= |t|
    ensures |t[start..end]| == end - start && t[start..end][off - start..] == t[off..end]
  {
    var bytes := t[start..end];
    assert |bytes[off - start..]| == |t[off..end]|;
    forall i | 0 <= i < end - off ensures bytes[off - start..][i] == t[off..end][i] { assert bytes[off - start + i] == t[off + i]; }
  }

  /** What the reads of one candidate give the matcher. */
  datatype GranuleRead = Capped(cap: Cap) | Ready(original: seq<Byte>, left: bool, right: bool)

  method ReadCandidate(c: Container, q: Query, g: SearchGranule, lim: Limits, decoded: U64, cache: ChunkDecodeCache, ghost hits: seq<SearchHit>)
    returns (r: Result<(U64, GranuleRead)>)
    requires c.Valid() && GranuleOk(c, g) && Consistent(c, cache.Now())
    modifies cache
    ensures match ReadGranule(c, q, g, lim, Progress(hits, decoded, old(cache.Now()), None))
            case Err => r.Err?
            case Ok(p) =>
              && Consistent(c, cache.Now()) && cache.Now() == p.cache && p.hits == hits
              && r.Ok? && r.value.0 == p.decoded
              && (p.stop.Some? ==> r.value.1 == Capped(p.stop.value))
              && (p.stop.None? ==>
                    g.End() <= |c.text| && r.value.1 == Ready(c.text[g.logicalOffset..g.End()], LeftContinues(c, q, g), RightContinues(c, q, g)))
  {
    TextFits(c);
    ReadGranuleIs(c, q, g, lim, Progress(hits, decoded, cache.Now(), None));
    hide *;
    var end := g.End();
    var readStart := ReadStart(q, g);
    var chunkStart, chunkEnd := g.chunkStart, g.chunkEnd;
    if q.TokenQuery? { chunkStart, chunkEnd := SpanOf(c, readStart, end); }
    var read := ReadWithin(c, readStart, end, chunkStart, chunkEnd, lim, decoded, cache, hits);
    if read.Err? { return Err; }
    if read.value.Stopped? { return Ok((decoded, Capped(read.value.cap))); }
    r := ReadEdges(c, q, g, readStart, read.value.bytes, lim, read.value.decoded, cache, hits);
  }

  /** The byte after the granule where it matters, and both continuation flags. */
  method ReadEdges(c: Container, q: Query, g: SearchGranule, readStart: U64, bytes: seq<Byte>, lim: Limits, decoded: U64, cache: ChunkDecodeCache, ghost hits: seq<SearchHit>)
    returns (r: Result<(U64, GranuleRead)>)
    requires c.Valid() && 0 < g.byteLength && g.End() <= |c.text| && Consistent(c, cache.Now())
    requires readStart == if q.TokenQuery? && g.logicalOffset > 0 then g.logicalOffset - 1 else g.logicalOffset
    requires bytes == c.text[readStart..g.End()]
    modifies cache
    ensures var p := Progress(hits, decoded, old(cache.Now()), None);
            match (if NeedsNext(c, q, g) then Charge(c, g.End(), g.End() + 1, lim, p) else Ok(p))
            case Err => r.Err?
            case Ok(p) =>
              && Consistent(c, cache.Now()) && cache.Now() == p.cache && p.hits == hits
              && r.Ok? && r.value.0 == p.decoded
              && (p.stop.Some? ==> r.value.1 == Capped(p.stop.value))
              && (p.stop.None? ==> r.value.1 == Ready(c.text[g.logicalOffset..g.End()], LeftContinues(c, q, g), RightContinues(c, q, g)))
  {
    TextFits(c);
    FlagsOf(c, q, g);
    hide *;
    var start := g.logicalOffset - readStart;
    var original := SplitRead(bytes, start, c.text, readStart, g.End());
    var left := start > 0 && IsTokenByte(bytes[start - 1]);
    if !(q.TokenQuery? && IsTokenByte(bytes[|bytes| - 1]) && g.End() < |c.text|) {
      return Ok((decoded, Ready(original, left, false)));
    }
    var next := ReadNextByte(c, g.End(), lim, decoded, cache, hits);
    if next.Err? { return Err; }
    if next.value.Stopped? { return Ok((decoded, Capped(next.value.cap))); }
    return Ok((next.value.decoded, Ready(original, left, IsTokenByte(next.value.bytes[0]))));
  }

  /** Drops the byte read in front, if any; its value and the last one are bytes of the text. */
  method SplitRead(bytes: seq<Byte>, start: nat, ghost t: seq<Byte>, ghost readStart: nat, ghost end: nat) returns (original: seq<Byte>)
    requires readStart + start < end <= |t| && bytes == t[readStart..end]
    ensures original == t[readStart + start..end]
    ensures |bytes| == end - readStart && bytes[|bytes| - 1] == t[end - 1]
    ensures start > 0 ==> bytes[start - 1] == t[readStart + start - 1]
  {
    WithoutFront(t, readStart, readStart + start, end);
    return bytes[start..];
  }

  method ReadNextByte(c: Container, position: U64, lim: Limits, decoded: U64, cache: ChunkDecodeCache, ghost hits: seq<SearchHit>)
    returns (r: Result<ReadOutcome>)
    requires c.Valid() && position < |c.text| && Consistent(c, cache.Now())
    modifies cache
    ensures match Charge(c, position, position + 1, lim, Progress(hits, decoded, old(cache.Now()), None))
            case Err => r.Err?
            case Ok(p) =>
              && Consistent(c, p.cache) && cache.Now() == p.cache && p.hits == hits
              && (p.stop.Some? ==> p.decoded == decoded)
              && r == Ok(match p.stop case Some(cap) => Stopped(cap) case None => Read([c.text[position]], p.decoded))
  {
    TextFits(c);
    hide *;
    var chunkStart, chunkEnd := SpanOf(c, position, position + 1);
    r := ReadWithin(c, position, position + 1, chunkStart, chunkEnd, lim, decoded, cache, hits);
    assert c.text[position..position + 1] == [c.text[position]];
  }

  method VerifyCandidate(c: Container, q: Query, g: SearchGranule, lim: Limits, hits: seq<SearchHit>, decoded: U64, cache: ChunkDecodeCache)
    returns (r: Result<(seq<SearchHit>, U64, Option<Cap>)>)
    requires c.Valid() && GranuleOk(c, g) && Consistent(c, cache.Now())
    modifies cache
    ensures match VerifyOne(c, q, g, lim, Progress(hits, decoded, old(cache.Now()), None))
            case Err => r.Err?
            case Ok(p) => Consistent(c, cache.Now()) && cache.Now() == p.cache && r == Ok((p.hits, p.decoded, p.stop))
  {
    hide ReadGranule, Collect, Consistent, Tiles, GranuleHits, LeftContinues, RightContinues, FirstChunk, PastChunk;
    ghost var p0 := Progress(hits, decoded, cache.Now(), None);
    var read := ReadCandidate(c, q, g, lim, decoded, cache, hits);
    if read.Err? { return Err; }
    match read.value.1
    case Capped(cap) =>
      return Ok((hits, read.value.0, Some(cap)));
    case Ready(original, left, right) =>
      ghost var p := ReadGranule(c, q, g, lim, p0).value;
      CollectRest(c, q, g, lim, p);
      TextFits(c);
      var found := CollectHits(c, q, g, original, left, right, lim, hits, p);
      return Ok((found.value.0, read.value.0, found.value.1));
  }

  lemma {:induction false} ReadGranuleIs(c: Container, q: Query, g: SearchGranule, lim: Limits, p: Progress)
    requires c.Valid() && GranuleOk(c, g)
    ensures 0 < g.byteLength && ReadStart(q, g) <= g.logicalOffset < g.End() <= |c.text|
    ensures ReadStart(q, g) == if q.TokenQuery? then SaturatingSub(g.logicalOffset, 1) else g.logicalOffset
    ensures SaturatingSub(g.logicalOffset, 1) == if g.logicalOffset == 0 then 0 else g.logicalOffset - 1
    ensures g.chunkStart == FirstChunk(c, g.logicalOffset) && g.chunkEnd == PastChunk(c, g.End())
    ensures NeedsNext(c, q, g) ==> g.End() < |c.text|
    ensures var first := Charge(c, ReadStart(q, g), g.End(), lim, p);
            if first.Err? || first.value.stop.Some? || !NeedsNext(c, q, g) then ReadGranule(c, q, g, lim, p) == first
            else ReadGranule(c, q, g, lim, p) == Charge(c, g.End(), g.End() + 1, lim, first.value)
  {
    hide Charge;
  }

  lemma {:induction false} FlagsOf(c: Container, q: Query, g: SearchGranule)
    requires 0 < g.byteLength && g.End() <= |c.text|
    ensures g.logicalOffset < g.End()
    ensures NeedsNext(c, q, g) == (q.TokenQuery? && IsTokenByte(c.text[g.End() - 1]) && g.End() < |c.text|)
    ensures LeftContinues(c, q, g) == (q.TokenQuery? && g.logicalOffset > 0 && IsTokenByte(c.text[g.logicalOffset - 1]))
    ensures RightContinues(c, q, g) == (NeedsNext(c, q, g) && g.End() < |c.text| && IsTokenByte(c.text[g.End()]))
  {
  }

  lemma {:induction false} CollectRest(c: Container, q: Query, g: SearchGranule, lim: Limits, p: Progress)
    requires g.End() <= |c.text|
    ensures Collect(c, q, g, lim, p).decoded == p.decoded && Collect(c, q, g, lim, p).cache == p.cache
  {
  }

  method SpanOf(c: Container, start: U64, end: U64) returns (first: U64, past: U64)
    requires c.Valid() && start < end <= |c.text|
    ensures first == FirstChunk(c, start) && past == PastChunk(c, end)
  {
    RangeChunks(c, start, end);
    var r := ChunkSpanForRange(c.entries, start, end, |c.text|);
    first, past := r.value.0, r.value.1;
  }

  /** The granules of the candidate ids. */
  function Selected(granules: seq<SearchGranule>, candidates: seq<U64>): (gs: seq<SearchGranule>)
    requires forall i :: 0 <= i < |candidates| ==> candidates[i] < |granules|
    ensures |gs| == |candidates| && forall i :: 0 <= i < |candidates| ==> gs[i] == granules[candidates[i]]
  {
    seq(|candidates|, i requires 0 <= i < |candidates| => granules[candidates[i]])
  }

  /** `verify_candidates` carries out the run, over candidates that passed span validation. */
  method VerifyCandidates(c: Container, q: Query, granules: seq<SearchGranule>, candidates: seq<U64>, lim: Limits)
    returns (r: Result<(seq<SearchHit>, Option<Cap>, U64, U64, U64)>)
    requires c.Valid() && (forall i :: 0 <= i < |candidates| ==> candidates[i] < |granules|) && AllOk(c, Selected(granules, candidates))
    ensures match VerifyAll(c, q, Selected(granules, candidates), lim, START)
            case Err => r.Err?
            case Ok(p) => r == Ok((p.hits, p.stop, p.decoded, p.cache.bytes, p.cache.chunks))
  {
    hide VerifyOne, Tiles;
    var cache := new ChunkDecodeCache();
    var hits: seq<SearchHit> := [];
    var decoded: U64 := 0;
    ghost var gs := Selected(granules, candidates);
    assert gs[0..] == gs;
    for i := 0 to |candidates|
      invariant fresh(cache) && Consistent(c, cache.Now())
      invariant VerifyAll(c, q, gs, lim, START) == VerifyAll(c, q, gs[i..], lim, Progress(hits, decoded, cache.Now(), None))
    {
      var g := granules[candidates[i]];
      assert gs[i..][0] == gs[i] == g && gs[i..][1..] == gs[i + 1..];
      assert GranuleOk(c, gs[i]);
      var step := VerifyCandidate(c, q, g, lim, hits, decoded, cache);
      if step.Err? { return Err; }
      hits, decoded := step.value.0, step.value.1;
      if step.value.2.Some? {
        return Ok((hits, step.value.2, decoded, cache.physicalDecodedBytes, cache.decodedChunks));
      }
    }
    return Ok((hits, None, decoded, cache.physicalDecodedBytes, cache.decodedChunks));
  }
}
