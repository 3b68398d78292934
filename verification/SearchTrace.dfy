/**
 * What a run over candidates reads, as a list of ranges fixed by the text alone, and how far along
 * that list each limit lets it go: the run's counters and its stop reason, without the run itself.
 */
module SearchTrace {
  import opened Bytes
  import opened ChunkTable
  import opened ChunkCache
  import opened Tokens
  import opened Verification

  type Range = (nat, nat)

  // ----- the reads -----

  /**
   * One candidate: its bytes, with the byte in front for a token query; then the byte after it, where
   * a token query's candidate ends inside the text with a token byte.
   */
  function ReadsOf(c: Container, q: Query, g: SearchGranule): seq<Range>
    requires 0 < g.byteLength && g.End() <= |c.text|
  {
    var start := if q.TokenQuery? && g.logicalOffset > 0 then g.logicalOffset - 1 else g.logicalOffset;
    [(start, g.End())]
    + if q.TokenQuery? && g.End() < |c.text| && IsTokenByte(c.text[g.End() - 1]) then [(g.End(), g.End() + 1)] else []
  }

  ghost function Reads(c: Container, q: Query, gs: seq<SearchGranule>): seq<Range>
    requires AllOk(c, gs)
  {
    if gs == [] then [] else ReadsOf(c, q, gs[0]) + Reads(c, q, gs[1..])
  }

  /** Bytes asked for, whatever is cached. */
  function Logical(rs: seq<Range>): int {
    if rs == [] then 0 else Logical(rs[..|rs| - 1]) + rs[|rs| - 1].1 - rs[|rs| - 1].0
  }

  /** The chunk ids a list of reads goes through, one after another. */
  ghost function Trail(c: Container, rs: seq<Range>): seq<nat>
    requires c.Valid() && AllRanges(c, rs)
  {
    if rs == [] then [] else Trail(c, rs[..|rs| - 1]) + ChunkIds(c, rs[|rs| - 1])
  }

  predicate AllRanges(c: Container, rs: seq<Range>) { forall i :: 0 <= i < |rs| ==> rs[i].0 < rs[i].1 <= |c.text| }

  /** The chunks of a range, in order. */
  ghost function ChunkIds(c: Container, r: Range): (ids: seq<nat>)
    requires c.Valid() && r.0 < r.1 <= |c.text|
  {
    RangeChunks(c, r.0, r.1);
    Ids(FirstChunk(c, r.0), PastChunk(c, r.1))
  }

  function Ids(from: nat, past: nat): (ids: seq<nat>)
    requires from <= past
    ensures |ids| == past - from && forall i :: 0 <= i < |ids| ==> ids[i] == from + i
  {
    seq(past - from, i requires 0 <= i < past - from => from + i)
  }

  /** Only the last chunk is kept, so a chunk is decoded wherever the trail moves to it. */
  predicate Moves(trail: seq<nat>, i: nat)
    requires i < |trail|
  {
    i == 0 || trail[i] != trail[i - 1]
  }

  /** Chunks decoded along a trail. */
  function Loads(trail: seq<nat>): nat {
    if trail == [] then 0 else Loads(trail[..|trail| - 1]) + if Moves(trail, |trail| - 1) then 1 else 0
  }

  /** Bytes decoded along a trail. */
  function LoadedBytes(c: Container, trail: seq<nat>): nat
    requires InTable(c, trail)
  {
    if trail == [] then 0
    else LoadedBytes(c, trail[..|trail| - 1]) + if Moves(trail, |trail| - 1) then c.entries[trail[|trail| - 1]].uncompressedSize else 0
  }

  predicate InTable(c: Container, trail: seq<nat>) { forall i :: 0 <= i < |trail| ==> trail[i] < |c.entries| }

  // ----- logical bytes in closed form -----

  /** Bytes one candidate asks for. */
  function CandidateBytes(c: Container, q: Query, g: SearchGranule): nat
    requires 0 < g.byteLength && g.End() <= |c.text|
  {
    g.byteLength
    + (if q.TokenQuery? && g.logicalOffset > 0 then 1 else 0)
    + (if q.TokenQuery? && g.End() < |c.text| && IsTokenByte(c.text[g.End() - 1]) then 1 else 0)
  }

  ghost function AllBytes(c: Container, q: Query, gs: seq<SearchGranule>): nat
    requires AllOk(c, gs)
  {
    if gs == [] then 0 else CandidateBytes(c, q, gs[0]) + AllBytes(c, q, gs[1..])
  }

  lemma {:induction false} LogicalAppend(a: seq<Range>, b: seq<Range>)
    ensures Logical(a + b) == Logical(a) + Logical(b)
    decreases |b|
  {
    if b == [] {
      assert a + b == a;
    } else {
      assert (a + b)[..|a + b| - 1] == a + b[..|b| - 1];
      LogicalAppend(a, b[..|b| - 1]);
    }
  }

  lemma {:induction false} LogicalOne(r: Range)
    ensures Logical([r]) == r.1 - r.0
  {
    assert Logical([r][..0]) == 0;
  }

  lemma {:induction false} ReadsOfBytes(c: Container, q: Query, g: SearchGranule)
    requires 0 < g.byteLength && g.End() <= |c.text|
    ensures Logical(ReadsOf(c, q, g)) == CandidateBytes(c, q, g)
  {
    hide Logical;
    var rs := ReadsOf(c, q, g);
    LogicalOne(rs[0]);
    if |rs| == 2 {
      LogicalAppend([rs[0]], [rs[1]]);
      LogicalOne(rs[1]);
      assert rs == [rs[0]] + [rs[1]];
    } else {
      assert rs == [rs[0]];
    }
  }

  lemma {:induction false} ReadsBytes(c: Container, q: Query, gs: seq<SearchGranule>)
    requires AllOk(c, gs)
    ensures Logical(Reads(c, q, gs)) == AllBytes(c, q, gs)
    decreases |gs|
  {
    hide ReadsOf, CandidateBytes;
    if gs != [] {
      ReadsOfBytes(c, q, gs[0]);
      ReadsBytes(c, q, gs[1..]);
      LogicalAppend(ReadsOf(c, q, gs[0]), Reads(c, q, gs[1..]));
    }
  }

  // ----- the cache along a trail -----

  /** The cache holds the last chunk of the trail, and its counters are those of the trail. */
  ghost predicate OnTrail(c: Container, trail: seq<nat>, s: CacheState) {
    && InTable(c, trail) && |c.entries| <= U64_MAX
    && s.bytes == LoadedBytes(c, trail) && s.chunks == Loads(trail)
    && s.chunkId == if trail == [] then None else Some(trail[|trail| - 1])
  }

  lemma {:induction false} TouchOnTrail(c: Container, s: CacheState, trail: seq<nat>, i: nat)
    requires c.Valid() && OnTrail(c, trail, s) && i < |c.entries| && c.entries[i].LogicalEnd() <= |c.text|
    requires Touch(c, s, c.entries[i]).Ok?
    ensures OnTrail(c, trail + [i], Touch(c, s, c.entries[i]).value)
  {
    assert ChunkInPlace(c.entries, i);
    assert (trail + [i])[..|trail|] == trail;
    hide Tiles;
  }

  lemma {:induction false} TouchSpanOnTrail(c: Container, s: CacheState, trail: seq<nat>, from: nat, past: nat)
    requires c.Valid() && OnTrail(c, trail, s) && from <= past <= |c.entries| && TouchSpan(c, s, from, past).Ok?
    ensures OnTrail(c, trail + Ids(from, past), TouchSpan(c, s, from, past).value)
    decreases past - from
  {
    hide OnTrail, Tiles, Touch;
    if from == past {
      assert trail + Ids(from, past) == trail;
    } else {
      TilesBelow(c.entries, |c.text|, from);
      TouchOnTrail(c, s, trail, from);
      TouchSpanOnTrail(c, Touch(c, s, c.entries[from]).value, trail + [from], from + 1, past);
      assert trail + [from] + Ids(from + 1, past) == trail + Ids(from, past);
    }
  }

  /** Both physical limits hold along the trail. */
  predicate Fits(c: Container, lim: Limits, trail: seq<nat>)
    requires InTable(c, trail)
  {
    LoadedBytes(c, trail) <= lim.maxBytes && Loads(trail) <= lim.maxChunks
  }

  /** Going on from a trail through `ids`, the limit named by `cap` is the first to be passed, at the chunk `ids[m]`. */
  predicate PassedAt(c: Container, lim: Limits, trail: seq<nat>, ids: seq<nat>, m: nat, cap: Cap)
    requires InTable(c, trail + ids)
  {
    && m < |ids|
    && InTable(c, trail + ids[..m]) && Fits(c, lim, trail + ids[..m])
    && InTable(c, trail + ids[..m + 1])
    && match cap
       case PhysicalBytes => LoadedBytes(c, trail + ids[..m + 1]) > lim.maxBytes
       case PhysicalChunks => LoadedBytes(c, trail + ids[..m + 1]) <= lim.maxBytes && Loads(trail + ids[..m + 1]) > lim.maxChunks
       case _ => false
  }

  /** The pre-check names the limit that would be passed first. */
  lemma {:induction false} SpanLimitOnTrail(c: Container, s: CacheState, trail: seq<nat>, from: nat, past: nat, lim: Limits)
    requires c.Valid() && OnTrail(c, trail, s) && Fits(c, lim, trail) && from <= past <= |c.entries|
    requires SpanLimitFor(c.entries, s, from, past, lim.maxBytes, lim.maxChunks).Ok?
    ensures InTable(c, trail + Ids(from, past))
    ensures match SpanLimitFor(c.entries, s, from, past, lim.maxBytes, lim.maxChunks).value
            case None => Fits(c, lim, trail + Ids(from, past))
            case Some(cap) => exists m: nat :: PassedAt(c, lim, trail, Ids(from, past), m, cap)
    decreases past - from
  {
    hide LoadedBytes, Loads;
    var ids := Ids(from, past);
    if from == past {
      assert trail + ids == trail;
    } else {
      assert ChunkInPlace(c.entries, from);
      var e, step := c.entries[from], trail + [from];
      StepOnTrail(c, s, trail, from);
      assert trail + ids[..0] == trail && trail + ids[..1] == step;
      if s.chunkId != Some(from) && s.bytes + e.uncompressedSize > lim.maxBytes {
        assert PassedAt(c, lim, trail, ids, 0, PhysicalBytes);
      } else if s.chunkId != Some(from) && s.chunks + 1 > lim.maxChunks {
        assert PassedAt(c, lim, trail, ids, 0, PhysicalChunks);
      } else {
        var next := if s.chunkId == Some(from) then s else s.(chunkId := Some(from), bytes := s.bytes + e.uncompressedSize, chunks := s.chunks + 1);
        SpanLimitOnTrail(c, next, step, from + 1, past, lim);
        assert step + Ids(from + 1, past) == trail + ids;
        var verdict := SpanLimitFor(c.entries, next, from + 1, past, lim.maxBytes, lim.maxChunks).value;
        if verdict.Some? {
          var m: nat :| PassedAt(c, lim, step, Ids(from + 1, past), m, verdict.value);
          ShiftIds(c, lim, trail, from, past, m, verdict.value);
        }
      }
    }
  }

  lemma {:induction false} StepOnTrail(c: Container, s: CacheState, trail: seq<nat>, i: nat)
    requires OnTrail(c, trail, s) && i < |c.entries|
    ensures InTable(c, trail + [i])
    ensures LoadedBytes(c, trail + [i]) == s.bytes + if s.chunkId == Some(i) then 0 else c.entries[i].uncompressedSize
    ensures Loads(trail + [i]) == s.chunks + if s.chunkId == Some(i) then 0 else 1
  {
    assert (trail + [i])[..|trail|] == trail;
  }

  lemma {:induction false} ShiftIds(c: Container, lim: Limits, trail: seq<nat>, from: nat, past: nat, m: nat, cap: Cap)
    requires from < past <= |c.entries| && InTable(c, trail) && InTable(c, trail + [from] + Ids(from + 1, past))
    requires PassedAt(c, lim, trail + [from], Ids(from + 1, past), m, cap)
    ensures InTable(c, trail + Ids(from, past)) && PassedAt(c, lim, trail, Ids(from, past), m + 1, cap)
  {
    hide LoadedBytes, Loads;
    assert trail + [from] + Ids(from + 1, past)[..m] == trail + Ids(from, past)[..m + 1];
    assert trail + [from] + Ids(from + 1, past)[..m + 1] == trail + Ids(from, past)[..m + 2];
  }

  // ----- one read -----

  /** The counters are those of the reads made. */
  ghost predicate Accounts(c: Container, rs: seq<Range>, p: Progress)
    requires c.Valid()
  {
    AllRanges(c, rs) && p.decoded == Logical(rs) && OnTrail(c, Trail(c, rs), p.cache)
  }

  /** after the reads `rs`, the read `r` would pass the limit named by `cap`, and that one first. */
  ghost predicate Refused(c: Container, lim: Limits, rs: seq<Range>, r: Range, cap: Cap)
    requires c.Valid()
  {
    && AllRanges(c, rs) && r.0 < r.1 <= |c.text|
    && if cap.DecodedBytes? then Logical(rs + [r]) > lim.maxDecoded
       else
         && Logical(rs + [r]) <= lim.maxDecoded
         && InTable(c, Trail(c, rs) + ChunkIds(c, r))
         && exists m: nat :: PassedAt(c, lim, Trail(c, rs), ChunkIds(c, r), m, cap)
  }

  lemma {:induction false} TrailNext(c: Container, rs: seq<Range>, r: Range)
    requires c.Valid() && AllRanges(c, rs) && r.0 < r.1 <= |c.text|
    ensures AllRanges(c, rs + [r]) && Trail(c, rs + [r]) == Trail(c, rs) + ChunkIds(c, r)
    ensures Logical(rs + [r]) == Logical(rs) + r.1 - r.0
  {
    hide ChunkIds;
    assert (rs + [r])[..|rs|] == rs;
  }

  /** A charged read is made, or refused for the limit it names. */
  lemma {:induction false} ChargeAccount(c: Container, start: nat, end: nat, lim: Limits, p: Progress, rs: seq<Range>)
    requires c.Valid() && start < end <= |c.text| && Within(c, lim, p) && p.stop.None? && Accounts(c, rs, p)
    requires Charge(c, start, end, lim, p).Ok?
    ensures var r := Charge(c, start, end, lim, p).value;
            && r.hits == p.hits
            && (r.stop.None? ==> Accounts(c, rs + [(start, end)], r))
            && (r.stop.Some? ==> Accounts(c, rs, r) && Refused(c, lim, rs, (start, end), r.stop.value))
  {
    hide Tiles, Logical, LoadedBytes, Loads, Trail, TouchSpan, SpanLimit, FirstChunk, PastChunk, Consistent, Moves;
    RangeChunks(c, start, end);
    TrailNext(c, rs, (start, end));
    var a, b := FirstChunk(c, start), PastChunk(c, end);
    assert ChunkIds(c, (start, end)) == Ids(a, b);
    if p.decoded + (end - start) <= lim.maxDecoded {
      SpanLimitOnTrail(c, p.cache, Trail(c, rs), a, b, lim);
      var cap := SpanLimitFor(c.entries, p.cache, a, b, lim.maxBytes, lim.maxChunks).value;
      if cap.None? { TouchSpanOnTrail(c, p.cache, Trail(c, rs), a, b); }
    }
  }

  // ----- one candidate -----

  /** Reads that are made in full, or up to one that is refused. */
  ghost predicate Advances(c: Container, lim: Limits, rs: seq<Range>, next: seq<Range>, n: nat, p: Progress)
    requires c.Valid()
  {
    && n <= |next| && Accounts(c, rs + next[..n], p)
    && (if p.stop.None? || p.stop.value.SearchResults? then n == |next| else n < |next| && Refused(c, lim, rs + next[..n], next[n], p.stop.value))
  }

  lemma {:induction false} ReadGranuleAccount(c: Container, q: Query, g: SearchGranule, lim: Limits, p: Progress, rs: seq<Range>) returns (n: nat)
    requires c.Valid() && GranuleOk(c, g) && Within(c, lim, p) && p.stop.None? && Accounts(c, rs, p)
    requires ReadGranule(c, q, g, lim, p).Ok?
    ensures Advances(c, lim, rs, ReadsOf(c, q, g), n, ReadGranule(c, q, g, lim, p).value)
    ensures ReadGranule(c, q, g, lim, p).value.hits == p.hits
  {
    hide Charge, Within, Accounts, Refused, Tiles, FirstChunk, PastChunk;
    var ranges := ReadsOf(c, q, g);
    assert ReadStart(q, g) == ranges[0].0 && NeedsNext(c, q, g) == (|ranges| == 2);
    ChargeAccount(c, ReadStart(q, g), g.End(), lim, p, rs);
    ChargeWithin(c, ReadStart(q, g), g.End(), lim, p);
    ChargeNotResults(c, ReadStart(q, g), g.End(), lim, p);
    var read := Charge(c, ReadStart(q, g), g.End(), lim, p).value;
    assert rs + ranges[..0] == rs && rs + ranges[..1] == rs + [ranges[0]];
    if read.stop.Some? {
      n := 0;
    } else if |ranges| == 2 {
      ChargeAccount(c, g.End(), g.End() + 1, lim, read, rs + [ranges[0]]);
      ChargeNotResults(c, g.End(), g.End() + 1, lim, read);
      assert rs + ranges[..2] == rs + [ranges[0]] + [ranges[1]];
      n := if Charge(c, g.End(), g.End() + 1, lim, read).value.stop.Some? then 1 else 2;
    } else {
      n := 1;
    }
  }

  lemma {:induction false} ChargeNotResults(c: Container, start: nat, end: nat, lim: Limits, p: Progress)
    requires c.Valid() && start < end <= |c.text| && p.stop.None? && Charge(c, start, end, lim, p).Ok?
    ensures Charge(c, start, end, lim, p).value.stop != Some(SearchResults)
    ensures Charge(c, start, end, lim, p).value.stop.Some? ==> Charge(c, start, end, lim, p).value.cache == p.cache
  {
    hide Tiles, FirstChunk, PastChunk, TouchSpan, SpanLimit;
    RangeChunks(c, start, end);
    LimitNotResults(c.entries, p.cache.chunkId, p.cache.bytes, p.cache.chunks, FirstChunk(c, start), PastChunk(c, end), lim.maxBytes, lim.maxChunks);
  }

  lemma {:induction false} LimitNotResults(entries: seq<ChunkEntry>, cached: Option<U64>, bytes: U64, chunks: U64, from: nat, past: nat, maxBytes: U64, maxChunks: U64)
    requires from <= past <= |entries|
    ensures SpanLimit(entries, cached, bytes, chunks, from, past, maxBytes, maxChunks) != Ok(Some(SearchResults))
    decreases past - from
  {
    if from < past {
      var e := entries[from];
      if cached == Some(e.chunkId) {
        LimitNotResults(entries, cached, bytes, chunks, from + 1, past, maxBytes, maxChunks);
      } else if bytes + e.uncompressedSize <= U64_MAX && chunks + 1 <= U64_MAX {
        LimitNotResults(entries, Some(e.chunkId), bytes + e.uncompressedSize, chunks + 1, from + 1, past, maxBytes, maxChunks);
      }
    }
  }

  lemma {:induction false} CollectAccount(c: Container, q: Query, g: SearchGranule, lim: Limits, p: Progress)
    requires g.End() <= |c.text| && |p.hits| < lim.maxResults
    ensures var r, all := Collect(c, q, g, lim, p), p.hits + GranuleHits(c, q, g);
            && r.decoded == p.decoded && r.cache == p.cache
            && if |all| < lim.maxResults then r.stop.None? && r.hits == all else r.stop == Some(SearchResults) && r.hits == all[..lim.maxResults]
  {
    hide GranuleHits;
  }

  lemma {:induction false} CollectAdvances(c: Container, lim: Limits, rs: seq<Range>, next: seq<Range>, n: nat, p: Progress, r: Progress)
    requires c.Valid() && Advances(c, lim, rs, next, n, p) && p.stop.None? && r.decoded == p.decoded && r.cache == p.cache
    requires r.stop.None? || r.stop.value.SearchResults?
    ensures Advances(c, lim, rs, next, n, r)
  {
    hide Tiles, Logical, Trail, OnTrail, Refused;
  }

  /** What one candidate leaves in the hits. */
  predicate Gains(lim: Limits, before: seq<SearchHit>, found: seq<SearchHit>, p: Progress) {
    match p.stop
    case None => p.hits == before + found && |p.hits| < lim.maxResults
    case Some(SearchResults) => lim.maxResults <= |before + found| && p.hits == (before + found)[..lim.maxResults]
    case Some(_) => p.hits == before
  }

  lemma {:induction false} VerifyOneAccount(c: Container, q: Query, g: SearchGranule, lim: Limits, p: Progress, rs: seq<Range>) returns (n: nat)
    requires c.Valid() && GranuleOk(c, g) && Within(c, lim, p) && p.stop.None? && Accounts(c, rs, p)
    requires VerifyOne(c, q, g, lim, p).Ok?
    ensures Advances(c, lim, rs, ReadsOf(c, q, g), n, VerifyOne(c, q, g, lim, p).value)
    ensures Gains(lim, p.hits, GranuleHits(c, q, g), VerifyOne(c, q, g, lim, p).value)
  {
    hide ReadGranule, Accounts, Refused, Tiles, FirstChunk, PastChunk, Collect, GranuleHits, Advances, ReadsOf;
    n := ReadGranuleAccount(c, q, g, lim, p, rs);
    var read := ReadGranule(c, q, g, lim, p).value;
    if read.stop.None? {
      CollectAccount(c, q, g, lim, read);
      CollectAdvances(c, lim, rs, ReadsOf(c, q, g), n, read, Collect(c, q, g, lim, read));
    } else {
      StoppedReading(c, lim, rs, ReadsOf(c, q, g), n, read, q, g, p);
    }
  }

  lemma {:induction false} StoppedReading(c: Container, lim: Limits, rs: seq<Range>, next: seq<Range>, n: nat, read: Progress, q: Query, g: SearchGranule, p: Progress)
    requires c.Valid() && GranuleOk(c, g) && p.stop.None? && ReadGranule(c, q, g, lim, p) == Ok(read) && read.stop.Some?
    ensures read.stop != Some(SearchResults)
  {
    hide Charge, Tiles, FirstChunk, PastChunk;
    ChargeNotResults(c, ReadStart(q, g), g.End(), lim, p);
    var first := Charge(c, ReadStart(q, g), g.End(), lim, p).value;
    if first.stop.None? && NeedsNext(c, q, g) { ChargeNotResults(c, g.End(), g.End() + 1, lim, first); }
  }

  // ----- the run -----

  /**
   * The run went through the first `k` candidates and made the first `n` reads. Unstopped, it made
   * them all. Stopped by the result limit, it read one more candidate and kept the hits that fit.
   * Stopped by another limit, the next read is one that would pass that limit.
   */
  ghost predicate RunsTo(c: Container, q: Query, gs: seq<SearchGranule>, lim: Limits, before: seq<SearchHit>, rs: seq<Range>, k: nat, n: nat, r: Progress)
    requires c.Valid() && AllOk(c, gs)
  {
    && k <= |gs| && n <= |Reads(c, q, gs)|
    && Accounts(c, rs + Reads(c, q, gs)[..n], r)
    && match r.stop
       case None => k == |gs| && n == |Reads(c, q, gs)| && r.hits == before + FullHits(c, q, gs) && |r.hits| < lim.maxResults
       case Some(SearchResults) =>
         && k < |gs| && n == |Reads(c, q, gs[..k + 1])|
         && |before + FullHits(c, q, gs[..k])| < lim.maxResults <= |before + FullHits(c, q, gs[..k + 1])|
         && r.hits == (before + FullHits(c, q, gs[..k + 1]))[..lim.maxResults]
       case Some(cap) =>
         && k < |gs| && |Reads(c, q, gs[..k])| <= n < |Reads(c, q, gs[..k + 1])| && n < |Reads(c, q, gs)|
         && r.hits == before + FullHits(c, q, gs[..k]) && |r.hits| < lim.maxResults
         && Refused(c, lim, rs + Reads(c, q, gs)[..n], Reads(c, q, gs)[n], cap)
  }

  lemma {:induction false} FirstOf(c: Container, q: Query, gs: seq<SearchGranule>, k: nat)
    requires AllOk(c, gs) && 0 < k <= |gs|
    ensures AllOk(c, gs[1..]) && AllOk(c, gs[..k]) && AllOk(c, gs[1..][..k - 1]) && GranuleOk(c, gs[0])
    ensures Reads(c, q, gs[..k]) == ReadsOf(c, q, gs[0]) + Reads(c, q, gs[1..][..k - 1])
    ensures FullHits(c, q, gs[..k]) == GranuleHits(c, q, gs[0]) + FullHits(c, q, gs[1..][..k - 1])
  {
    hide ReadsOf, GranuleHits;
    assert gs[..k][1..] == gs[1..][..k - 1];
  }

  lemma {:induction false} OkRange(c: Container, g: SearchGranule)
    requires GranuleOk(c, g)
    ensures 0 < g.byteLength && g.End() <= |c.text|
  {
  }

  lemma {:induction false} RunAccount(c: Container, q: Query, gs: seq<SearchGranule>, lim: Limits, p: Progress, rs: seq<Range>) returns (k: nat, n: nat)
    requires c.Valid() && AllOk(c, gs) && Within(c, lim, p) && p.stop.None? && Accounts(c, rs, p)
    requires VerifyAll(c, q, gs, lim, p).Ok?
    ensures RunsTo(c, q, gs, lim, p.hits, rs, k, n, VerifyAll(c, q, gs, lim, p).value)
    decreases |gs|
  {
    hide VerifyOne, Tiles, Accounts, Refused, ReadsOf, GranuleHits, GranuleOk;
    if gs == [] {
      k, n := 0, 0;
      assert rs + Reads(c, q, gs)[..0] == rs;
    } else {
      OkRange(c, gs[0]);
      VerifyOneSound(c, q, gs[0], lim, p);
      var m := VerifyOneAccount(c, q, gs[0], lim, p, rs);
      var next, here := VerifyOne(c, q, gs[0], lim, p).value, ReadsOf(c, q, gs[0]);
      if next.stop.Some? {
        k, n := 0, m;
        StoppedAtFirst(c, q, gs, lim, p.hits, rs, m, next);
        assert VerifyAll(c, q, gs[1..], lim, next) == Ok(next);
      } else {
        assert here[..m] == here;
        k, n := RunAccount(c, q, gs[1..], lim, next, rs + here);
        RunsOn(c, q, gs, lim, p.hits, rs, k, n, VerifyAll(c, q, gs[1..], lim, next).value);
        k, n := k + 1, |here| + n;
      }
    }
  }

  lemma {:induction false} StoppedAtFirst(c: Container, q: Query, gs: seq<SearchGranule>, lim: Limits, before: seq<SearchHit>, rs: seq<Range>, m: nat, r: Progress)
    requires c.Valid() && AllOk(c, gs) && gs != [] && r.stop.Some? && |before| < lim.maxResults
    requires GranuleOk(c, gs[0]) && Advances(c, lim, rs, ReadsOf(c, q, gs[0]), m, r) && Gains(lim, before, GranuleHits(c, q, gs[0]), r)
    ensures RunsTo(c, q, gs, lim, before, rs, 0, m, r)
  {
    hide Tiles, Accounts, Refused, ReadsOf, GranuleHits, GranuleOk;
    OkRange(c, gs[0]);
    var here := ReadsOf(c, q, gs[0]);
    FirstOf(c, q, gs, 1);
    assert gs[..0] == [] && gs[1..][..0] == [];
    assert Reads(c, q, []) == [] && FullHits(c, q, []) == [];
    assert Reads(c, q, gs[..1]) == here && FullHits(c, q, gs[..1]) == GranuleHits(c, q, gs[0]);
    assert before + [] == before;
    var all := here + Reads(c, q, gs[1..]);
    assert all[..m] == here[..m];
  }

  lemma {:induction false} RunsOn(c: Container, q: Query, gs: seq<SearchGranule>, lim: Limits, before: seq<SearchHit>, rs: seq<Range>, k: nat, n: nat, r: Progress)
    requires c.Valid() && AllOk(c, gs) && gs != [] && GranuleOk(c, gs[0])
    requires RunsTo(c, q, gs[1..], lim, before + GranuleHits(c, q, gs[0]), rs + ReadsOf(c, q, gs[0]), k, n, r)
    ensures RunsTo(c, q, gs, lim, before, rs, k + 1, |ReadsOf(c, q, gs[0])| + n, r)
  {
    hide Tiles, Accounts, Refused, ReadsOf, GranuleHits, GranuleOk, Reads, FullHits;
    OkRange(c, gs[0]);
    FirstOf(c, q, gs, |gs|);
    FirstOf(c, q, gs, k + 1);
    if k < |gs[1..]| { FirstOf(c, q, gs, k + 2); }
    assert gs[..|gs|] == gs && gs[1..][..|gs| - 1] == gs[1..];
    Joins(before, GranuleHits(c, q, gs[0]));
    Splits(rs, ReadsOf(c, q, gs[0]), Reads(c, q, gs[1..]), n);
  }

  lemma {:induction false} Joins<T>(a: seq<T>, b: seq<T>)
    ensures forall x: seq<T> :: a + b + x == a + (b + x)
  {
    forall x: seq<T> ensures a + b + x == a + (b + x) { }
  }

  lemma {:induction false} Splits<T>(a: seq<T>, b: seq<T>, x: seq<T>, n: nat)
    requires n <= |x|
    ensures a + b + x[..n] == a + (b + x)[..|b| + n]
    ensures n < |x| ==> x[n] == (b + x)[|b| + n]
  {
    assert (b + x)[..|b| + n] == b + x[..n];
  }

  // ----- one limit at a time -----

  lemma {:induction false} LoadsGrow(c: Container, trail: seq<nat>, n: nat)
    requires n <= |trail| && InTable(c, trail)
    ensures Loads(trail[..n]) <= Loads(trail) && LoadedBytes(c, trail[..n]) <= LoadedBytes(c, trail)
    decreases |trail| - n
  {
    if n < |trail| {
      var front := trail[..|trail| - 1];
      assert front[..n] == trail[..n];
      LoadsGrow(c, front, n);
    } else {
      assert trail[..n] == trail;
    }
  }

  lemma {:induction false} PassedOnce(c: Container, lim: Limits, trail: seq<nat>, ids: seq<nat>, i: nat, a: Cap, j: nat, b: Cap)
    requires InTable(c, trail + ids) && PassedAt(c, lim, trail, ids, i, a) && PassedAt(c, lim, trail, ids, j, b)
    ensures a == b
  {
    hide Loads, LoadedBytes;
    if i < j {
      LoadsGrow(c, trail + ids[..j], |trail| + i + 1);
      assert (trail + ids[..j])[..|trail| + i + 1] == trail + ids[..i + 1];
    }
    if j < i {
      LoadsGrow(c, trail + ids[..i], |trail| + j + 1);
      assert (trail + ids[..i])[..|trail| + j + 1] == trail + ids[..j + 1];
    }
  }

  /** At most one limit is the first to be passed. */
  lemma {:induction false} RefusedOnce(c: Container, lim: Limits, rs: seq<Range>, r: Range, a: Cap, b: Cap)
    requires c.Valid() && Refused(c, lim, rs, r, a) && Refused(c, lim, rs, r, b)
    ensures a == b
  {
    hide Tiles, Trail, ChunkIds, Logical, PassedAt;
    if !a.DecodedBytes? && !b.DecodedBytes? {
      var i: nat :| PassedAt(c, lim, Trail(c, rs), ChunkIds(c, r), i, a);
      var j: nat :| PassedAt(c, lim, Trail(c, rs), ChunkIds(c, r), j, b);
      PassedOnce(c, lim, Trail(c, rs), ChunkIds(c, r), i, a, j, b);
    }
  }

  /**
   * The outcome of a run from the text alone. Its counters are those of the first `n` reads: their
   * lengths added up, and the chunks and bytes decoded along their chunks. It ends unstopped exactly
   * when these are all the reads and the results have room left; with the result limit exactly when
   * the hits reach it; with another limit exactly when the next read would pass that one first.
   */
  lemma {:induction false} RunOutcome(c: Container, q: Query, gs: seq<SearchGranule>, lim: Limits) returns (k: nat, n: nat)
    requires c.Valid() && AllOk(c, gs) && lim.maxResults > 0 && VerifyAll(c, q, gs, lim, START).Ok?
    ensures RunsTo(c, q, gs, lim, [], [], k, n, VerifyAll(c, q, gs, lim, START).value)
    ensures var all, r := Reads(c, q, gs), VerifyAll(c, q, gs, lim, START).value;
            && n <= |all| && AllRanges(c, all[..n]) && InTable(c, Trail(c, all[..n]))
            && r.decoded == Logical(all[..n]) && r.cache.chunks == Loads(Trail(c, all[..n])) && r.cache.bytes == LoadedBytes(c, Trail(c, all[..n]))
    ensures var all, r := Reads(c, q, gs), VerifyAll(c, q, gs, lim, START).value;
            && (r.stop.None? <==> n == |all| && |r.hits| < lim.maxResults)
            && (r.stop == Some(SearchResults) <==> |r.hits| == lim.maxResults)
            && forall cap: Cap :: !cap.SearchResults? ==> (r.stop == Some(cap) <==> |r.hits| < lim.maxResults && n < |all| && Refused(c, lim, all[..n], all[n], cap))
  {
    hide VerifyAll, Tiles, Reads, FullHits, Refused, Logical, Loads, LoadedBytes, Trail, Within;
    StartWithin(c, lim);
    StartAccounts(c);
    k, n := RunAccount(c, q, gs, lim, START, []);
    var all, r := Reads(c, q, gs), VerifyAll(c, q, gs, lim, START).value;
    assert [] + all[..n] == all[..n];
    forall cap: Cap | !cap.SearchResults? ensures r.stop == Some(cap) <==> |r.hits| < lim.maxResults && n < |all| && Refused(c, lim, all[..n], all[n], cap) {
      if r.stop.Some? && !r.stop.value.SearchResults? && n < |all| && Refused(c, lim, all[..n], all[n], cap) {
        RefusedOnce(c, lim, all[..n], all[n], cap, r.stop.value);
      }
    }
  }

  lemma {:induction false} StartAccounts(c: Container)
    requires c.Valid()
    ensures Accounts(c, [], START)
  {
    TextFits(c);
    if |c.entries| > 0 { ManyChunksManyBytes(c.entries, |c.text|, |c.entries| - 1); }
  }

  /** Unstopped, a run reads every candidate's bytes and the bytes next to it that a token query needs. */
  lemma {:induction false} UnstoppedBytes(c: Container, q: Query, gs: seq<SearchGranule>, lim: Limits)
    requires c.Valid() && AllOk(c, gs) && lim.maxResults > 0 && VerifyAll(c, q, gs, lim, START).Ok?
    ensures VerifyAll(c, q, gs, lim, START).value.stop.None? ==> VerifyAll(c, q, gs, lim, START).value.decoded == AllBytes(c, q, gs)
  {
    hide VerifyAll, Tiles, Reads, FullHits, Refused, Logical, Loads, LoadedBytes, Trail, AllBytes, Accounts;
    var k, n := RunOutcome(c, q, gs, lim);
    ReadsBytes(c, q, gs);
    assert Reads(c, q, gs)[..|Reads(c, q, gs)|] == Reads(c, q, gs);
  }
}
