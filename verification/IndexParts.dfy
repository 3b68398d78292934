/** Constructing an index from its parts: limits, shape checks, and encoded posting lists. */
module IndexParts {
  import opened Bytes
  import opened ChunkCache
  import opened KeySets
  import opened Delta
  import opened Postings
  import opened PostingStream
  import opened Lines
  import opened LineIndex
  import opened Verification
  import opened Search
  import SearchExact

  // ----- limits -----

  ghost predicate PartsWithin(limits: BuildLimits, parts: LineIndexParts) {
    && |parts.granules| <= limits.maxGranules
    && |parts.terms| <= limits.maxKeys
    && TotalBytes(parts.terms) <= limits.maxKeyBytes
    && TotalIds(parts.postings) <= limits.maxPostings
  }

  /** `check_parts` decides the limits on materialized parts. */
  method CheckParts(limits: BuildLimits, parts: LineIndexParts) returns (ok: bool)
    ensures ok <==> PartsWithin(limits, parts)
  {
    if |parts.granules| > limits.maxGranules || |parts.terms| > limits.maxKeys { return false; }
    var keyBytes: U64 := 0;
    assert parts.terms[0..] == parts.terms && parts.postings[0..] == parts.postings;
    for i := 0 to |parts.terms|
      invariant keyBytes <= limits.maxKeyBytes && keyBytes + TotalBytes(parts.terms[i..]) == TotalBytes(parts.terms)
    {
      assert parts.terms[i..][1..] == parts.terms[i + 1..] && parts.terms[i..][0] == parts.terms[i];
      var next := Charged(keyBytes, |parts.terms[i]|, limits.maxKeyBytes);
      if next.Err? { return false; }
      keyBytes := next.value;
    }
    var count: U64 := 0;
    for i := 0 to |parts.postings|
      invariant count <= limits.maxPostings && count + TotalIds(parts.postings[i..]) == TotalIds(parts.postings)
    {
      assert parts.postings[i..][1..] == parts.postings[i + 1..] && parts.postings[i..][0] == parts.postings[i];
      var next := Charged(count, |parts.postings[i]|, limits.maxPostings);
      if next.Err? { return false; }
      count := next.value;
    }
    return true;
  }

  lemma {:induction false} ListedIsTotal(terms: seq<Key>, postings: seq<seq<U64>>, stream: seq<Pair>)
    requires |terms| == |postings| && forall i :: 0 <= i < |terms| ==> postings[i] == PostingsOf(stream, terms[i])
    ensures TotalIds(postings) == ListedIds(terms, stream)
    decreases |terms|
  {
    hide PostingsOf;
    if terms != [] { ListedIsTotal(terms[1..], postings[1..], stream); }
  }

  /** The limits the meter enforced while building are the limits on the finished parts. */
  lemma {:induction false} BuiltPartsAccepted(c: Container, mode: BuildKeys, maxLine: nat, limits: BuildLimits, parts: LineIndexParts)
    requires IsIndexOf(c, mode, parts) && Buildable(c.text, mode, maxLine, limits)
    ensures PartsWithin(limits, parts)
  {
    hide PostingsOf, PostingCount, LinesFrom, Stream, Dictionary;
    var stream := Stream(mode, c.text, LinesFrom(c.text, 0));
    MeterConserved(stream);
    ListedIsTotal(parts.terms, parts.postings, stream);
  }

  // ----- shape -----

  ghost predicate GranulesShape(size: nat, gs: seq<SearchGranule>) {
    forall i :: 0 <= i < |gs| ==> GranuleShape(size, gs, i)
  }

  predicate GranuleShape(size: nat, gs: seq<SearchGranule>, i: nat)
    requires i < |gs|
  {
    && gs[i].granuleId == i
    && gs[i].End() <= size
    && gs[i].chunkStart <= gs[i].chunkEnd
    && (i > 0 ==> gs[i - 1].logicalOffset <= gs[i].logicalOffset)
  }

  method ValidateGranules(size: U64, gs: seq<SearchGranule>) returns (ok: bool)
    ensures ok <==> GranulesShape(size, gs)
  {
    var previous: Option<U64> := None;
    for i := 0 to |gs|
      invariant forall k :: 0 <= k < i ==> GranuleShape(size, gs, k)
      invariant previous == if i == 0 then None else Some(gs[i - 1].logicalOffset)
    {
      var g := gs[i];
      var end := CheckedAdd(g.logicalOffset, g.byteLength);
      if g.granuleId != i || end.Err? || end.value > size
         || (previous.Some? && g.logicalOffset < previous.value) || g.chunkEnd < g.chunkStart
      {
        assert !GranuleShape(size, gs, i);
        return false;
      }
      previous := Some(g.logicalOffset);
    }
    return true;
  }

  /** Ascending terms without flags, each with an increasing list of known granules. */
  ghost predicate TermsShape(terms: seq<Key>, postings: seq<seq<U64>>, flags: seq<U64>, granuleCount: nat) {
    && |terms| == |postings|
    && flags == NoFlags(|terms|)
    && Sorted(terms)
    && AllIncreasing(postings)
    && forall i :: 0 <= i < |postings| ==> Below(postings[i], granuleCount)
  }

  predicate NextAbove(terms: seq<Key>, i: nat)
    requires i + 1 < |terms|
  {
    Less(terms[i], terms[i + 1])
  }

  /** Comparing neighbours is enough. */
  lemma {:induction false} NeighboursSort(terms: seq<Key>, i: nat, j: nat)
    requires i < j < |terms| && forall k :: 0 <= k < |terms| - 1 ==> NextAbove(terms, k)
    ensures Less(terms[i], terms[j])
    decreases j - i
  {
    assert NextAbove(terms, j - 1);
    if i + 1 < j {
      NeighboursSort(terms, i, j - 1);
      LessTransitive(terms[i], terms[j - 1], terms[j]);
    }
  }

  predicate NextLarger(list: seq<U64>, i: nat)
    requires i + 1 < |list|
  {
    list[i] < list[i + 1]
  }

  lemma {:induction false} NeighboursIncrease(list: seq<U64>, i: nat, j: nat)
    requires i < j < |list| && forall k :: 0 <= k < |list| - 1 ==> NextLarger(list, k)
    ensures list[i] < list[j]
    decreases j - i
  {
    assert NextLarger(list, j - 1);
    if i + 1 < j { NeighboursIncrease(list, i, j - 1); }
  }

  method ValidateTermDictionaryShape(terms: seq<Key>, postings: seq<seq<U64>>, flags: seq<U64>, granuleCount: nat) returns (ok: bool)
    ensures ok <==> TermsShape(terms, postings, flags, granuleCount)
  {
    hide Less;
    if |terms| != |postings| || |terms| != |flags| { return false; }
    var i := 0;
    while i + 1 < |terms|
      invariant 0 <= i && (|terms| > 0 ==> i < |terms|)
      invariant forall k :: 0 <= k < i && k + 1 < |terms| ==> NextAbove(terms, k)
    {
      if !Less(terms[i], terms[i + 1]) { return false; }
      assert NextAbove(terms, i);
      i := i + 1;
    }
    forall a, b | 0 <= a < b < |terms| ensures Less(terms[a], terms[b]) { NeighboursSort(terms, a, b); }
    for t := 0 to |postings|
      invariant forall k :: 0 <= k < t ==> flags[k] == 0
      invariant forall k :: 0 <= k < t ==> Increasing(postings[k]) && Below(postings[k], granuleCount)
    {
      if flags[t] != 0 { return false; }
      var fine := ValidateList(postings[t], granuleCount);
      if !fine { return false; }
    }
    return true;
  }

  method ValidateList(list: seq<U64>, granuleCount: nat) returns (ok: bool)
    ensures ok <==> Increasing(list) && Below(list, granuleCount)
  {
    var i := 0;
    while i + 1 < |list|
      invariant 0 <= i && (|list| > 0 ==> i < |list|)
      invariant forall k :: 0 <= k < i && k + 1 < |list| ==> NextLarger(list, k)
    {
      if list[i] >= list[i + 1] { return false; }
      assert NextLarger(list, i);
      i := i + 1;
    }
    forall a, b | 0 <= a < b < |list| ensures list[a] < list[b] { NeighboursIncrease(list, a, b); }
    for j := 0 to |list|
      invariant forall k :: 0 <= k < j ==> list[k] < granuleCount
    {
      if list[j] >= granuleCount { return false; }
    }
    return true;
  }

  // ----- encoded lists -----

  /** 24 bytes for each skip point of a long list. */
  function SkipBytes(list: seq<U64>, withSkips: bool): nat {
    if withSkips && |list| >= SKIP_THRESHOLD then (|list| - 1) / SKIP_INTERVAL * 24 else 0
  }

  /** Encoded bytes of the first `n` lists, and their skip bytes. */
  function EncodedBefore(postings: seq<seq<U64>>, n: nat): nat
    requires n <= |postings|
  {
    if n == 0 then 0 else EncodedBefore(postings, n - 1) + |Encoded(postings[n - 1])|
  }

  function SkipsBefore(postings: seq<seq<U64>>, withSkips: bool, n: nat): nat
    requires n <= |postings|
  {
    if n == 0 then 0 else SkipsBefore(postings, withSkips, n - 1) + SkipBytes(postings[n - 1], withSkips)
  }

  lemma {:induction false} BeforeGrows(postings: seq<seq<U64>>, withSkips: bool, i: nat, j: nat)
    requires i <= j <= |postings|
    ensures EncodedBefore(postings, i) <= EncodedBefore(postings, j)
    ensures SkipsBefore(postings, withSkips, i) <= SkipsBefore(postings, withSkips, j)
    decreases j - i
  {
    hide Encoded, SkipBytes;
    if i < j { BeforeGrows(postings, withSkips, i, j - 1); }
  }

  datatype TermStats = TermStats(frequency: nat, postingOffset: nat, postingSize: nat, skipOffset: nat, skipSize: nat)

  /** The statistics of one term: its offsets are the sizes of everything before it. */
  ghost predicate StatsOf(postings: seq<seq<U64>>, withSkips: bool, i: nat, s: TermStats)
    requires i < |postings|
  {
    && s.frequency == |postings[i]|
    && s.postingOffset == EncodedBefore(postings, i) && s.postingSize == |Encoded(postings[i])|
    && s.skipOffset == SkipsBefore(postings, withSkips, i) && s.skipSize == SkipBytes(postings[i], withSkips)
  }

  /** The size pre-check of `encode_posting_lists`. */
  method ChargeEncoded(postings: seq<seq<U64>>, withSkips: bool, maxEncoded: U64) returns (ok: bool)
    ensures ok <==> AllIncreasing(postings) && EncodedBefore(postings, |postings|) + SkipsBefore(postings, withSkips, |postings|) <= maxEncoded
  {
    hide Encoded, Increasing;
    var size: U64 := 0;
    for i := 0 to |postings|
      invariant forall k :: 0 <= k < i ==> Increasing(postings[k])
      invariant size == EncodedBefore(postings, i) + SkipsBefore(postings, withSkips, i) <= maxEncoded
    {
      BeforeGrows(postings, withSkips, i + 1, |postings|);
      var listSize := EncodedSize(postings[i]);
      if listSize.Err? { return false; }
      var next := Charged(size, listSize.value, maxEncoded);
      if next.Err? { return false; }
      var all := Charged(next.value, SkipBytes(postings[i], withSkips), maxEncoded);
      if all.Err? { return false; }
      size := all.value;
    }
    return true;
  }

  method EncodePostingLists(postings: seq<seq<U64>>, withSkips: bool, maxEncoded: U64)
    returns (r: Result<(seq<TermStats>, seq<seq<Byte>>, seq<seq<SkipPoint>>)>)
    ensures r.Ok? <==> AllIncreasing(postings) && EncodedBefore(postings, |postings|) + SkipsBefore(postings, withSkips, |postings|) <= maxEncoded
    ensures r.Ok? ==> |r.value.0| == |r.value.1| == |r.value.2| == |postings|
    ensures r.Ok? ==> forall i :: 0 <= i < |postings| ==>
              StatsOf(postings, withSkips, i, r.value.0[i]) && r.value.1[i] == Encoded(postings[i])
  {
    hide Encoded, Increasing, StatsOf;
    var affordable := ChargeEncoded(postings, withSkips, maxEncoded);
    if !affordable { return Err; }
    var stats: seq<TermStats>, encoded: seq<seq<Byte>>, skips: seq<seq<SkipPoint>> := [], [], [];
    var postingOffset: U64, skipOffset: U64 := 0, 0;
    for i := 0 to |postings|
      invariant |stats| == |encoded| == |skips| == i
      invariant postingOffset == EncodedBefore(postings, i) && skipOffset == SkipsBefore(postings, withSkips, i)
      invariant forall k :: 0 <= k < i ==> StatsOf(postings, withSkips, k, stats[k]) && encoded[k] == Encoded(postings[k])
    {
      BeforeGrows(postings, withSkips, i + 1, |postings|);
      var bytes := Encode(postings[i]);
      if bytes.Err? { return Err; }
      var points: seq<SkipPoint> := [];
      if withSkips {
        var built := BuildSkipPoints(postings[i], bytes.value);
        points := built.value;
      }
      assert |points| * 24 == SkipBytes(postings[i], withSkips);
      var s := TermStats(|postings[i]|, postingOffset, |bytes.value|, skipOffset, |points| * 24);
      StatsHold(postings, withSkips, i, s);
      postingOffset := postingOffset + |bytes.value|;
      skipOffset := skipOffset + |points| * 24;
      stats, encoded, skips := stats + [s], encoded + [bytes.value], skips + [points];
    }
    return Ok((stats, encoded, skips));
  }

  lemma {:induction false} StatsHold(postings: seq<seq<U64>>, withSkips: bool, i: nat, s: TermStats)
    requires i < |postings| && s.frequency == |postings[i]|
    requires s.postingOffset == EncodedBefore(postings, i) && s.postingSize == |Encoded(postings[i])|
    requires s.skipOffset == SkipsBefore(postings, withSkips, i) && s.skipSize == SkipBytes(postings[i], withSkips)
    ensures StatsOf(postings, withSkips, i, s)
  {
  }

  /** `from_parts` of both indexes: accepted parts make a well-formed index. */
  method FromParts(size: U64, parts: LineIndexParts, withSkips: bool, limits: BuildLimits, maxEncoded: U64, complete: bool)
    returns (r: Result<(Index, seq<TermStats>)>)
    ensures r.Ok? <==> && PartsWithin(limits, parts) && GranulesShape(size, parts.granules)
                       && TermsShape(parts.terms, parts.postings, parts.flags, |parts.granules|)
                       && EncodedBefore(parts.postings, |parts.postings|) + SkipsBefore(parts.postings, withSkips, |parts.postings|) <= maxEncoded
    ensures r.Ok? ==> && WellFormed(r.value.0) && parts == LineIndexParts(r.value.0.granules, r.value.0.terms, r.value.0.postings, NoFlags(|r.value.0.terms|))
                      && r.value.0.complete == complete
                      && |r.value.1| == |parts.terms| && forall i :: 0 <= i < |parts.postings| ==> StatsOf(parts.postings, withSkips, i, r.value.1[i])
  {
    hide Encoded, Increasing, StatsOf, Less, GranuleShape;
    var within := CheckParts(limits, parts);
    if !within { return Err; }
    var granulesFine := ValidateGranules(size, parts.granules);
    if !granulesFine { return Err; }
    var termsFine := ValidateTermDictionaryShape(parts.terms, parts.postings, parts.flags, |parts.granules|);
    if !termsFine { return Err; }
    var encoded := EncodePostingLists(parts.postings, withSkips, maxEncoded);
    if encoded.Err? { return Err; }
    forall i | 0 <= i < |parts.postings| ensures IdsBelow(parts.postings[i], |parts.granules|) {
      assert Below(parts.postings[i], |parts.granules|);
      SearchExact.IncreasingShort(parts.postings[i], |parts.granules|);
    }
    return Ok((Index(parts.granules, parts.terms, parts.postings, encoded.value.1, complete), encoded.value.0));
  }

  /** Parts the builder makes pass every check of `from_parts` but the encoded-size limit. */
  lemma {:induction false} BuiltPartsFit(c: Container, mode: BuildKeys, maxLine: nat, limits: BuildLimits, parts: LineIndexParts)
    requires c.Valid() && IsIndexOf(c, mode, parts) && Buildable(c.text, mode, maxLine, limits)
    ensures PartsWithin(limits, parts) && GranulesShape(|c.text|, parts.granules) && TermsShape(parts.terms, parts.postings, parts.flags, |parts.granules|)
  {
    hide LinesFrom, Stream, Dictionary, PostingsOf, ChunkTable.Tiles, Less, IsLineGranule;
    BuiltPartsAccepted(c, mode, maxLine, limits, parts);
    var x := Index(parts.granules, parts.terms, parts.postings, seq(|parts.terms|, _ => []), true);
    SearchExact.BuiltIsWellFormed(c, mode, x);
    var ls := LinesFrom(c.text, 0);
    LinesTile(c.text, 0) by { ZeroStarts(c.text); }
    forall i | 0 <= i < |parts.granules| ensures GranuleShape(|c.text|, parts.granules, i) {
      BuiltGranuleShape(c, parts.granules, ls, i);
    }
  }

  lemma {:induction false} BuiltGranuleShape(c: Container, gs: seq<SearchGranule>, ls: seq<Span>, i: nat)
    requires c.Valid() && AreLineGranules(c, gs, ls) && i < |gs|
    requires (forall k :: 0 <= k < |ls| ==> IsLine(c.text, ls[k])) && (forall k :: 0 <= k < |ls| - 1 ==> ls[k].1 == ls[k + 1].0)
    ensures GranuleShape(|c.text|, gs, i)
  {
    hide ChunkTable.Tiles, FirstChunk, PastChunk;
    assert IsLineGranule(c, gs[i], ls[i], i) && IsLine(c.text, ls[i]);
    RangeChunks(c, ls[i].0, ls[i].1);
    if i > 0 {
      assert IsLineGranule(c, gs[i - 1], ls[i - 1], i - 1);
      SearchExact.LinesAscend(c.text, ls, i - 1, i);
    }
  }

  /**
   * `build_from_file` of both indexes. It fails exactly on text that is not UTF-8 or on a limit
   * that the text itself breaks; what it returns is the index of the text.
   */
  method BuildIndex(c: Container, mode: BuildKeys, maxLine: U64, limits: BuildLimits, maxEncoded: U64, complete: bool)
    returns (r: Result<Index>)
    requires c.Valid()
    ensures r.Ok? ==> WellFormed(r.value) && SearchExact.Built(c, mode, r.value) && r.value.complete == complete
    ensures r.Ok? ==> mode.Valid() && ChunksValid(c) && Buildable(c.text, mode, maxLine, limits)
    ensures mode.Valid() && ChunksValid(c) && Buildable(c.text, mode, maxLine, limits) && r.Err? ==>
              exists parts :: IsIndexOf(c, mode, parts) && EncodedTotal(parts, mode.NgramMode?) > maxEncoded
    ensures r.Ok? ==> forall parts :: IsIndexOf(c, mode, parts) ==> EncodedTotal(parts, mode.NgramMode?) <= maxEncoded
  {
    hide ChunksValid, Buildable, IsIndexOf, WellFormed, PartsWithin, GranulesShape, TermsShape;
    if !mode.Valid() { return Err; }
    TextFits(c);
    var parts := BuildLineIndexStreaming(c, maxLine, limits, mode);
    if parts.Err? { return Err; }
    BuiltPartsFit(c, mode, maxLine, limits, parts.value);
    var made := FromParts(|c.text|, parts.value, mode.NgramMode?, limits, maxEncoded, complete);
    if made.Err? {
      assert IsIndexOf(c, mode, parts.value) && EncodedTotal(parts.value, mode.NgramMode?) > maxEncoded;
      return Err;
    }
    SameTotal(c, mode, parts.value);
    return Ok(made.value.0);
  }

  /** The encoded size is determined by the text. */
  lemma {:induction false} SameTotal(c: Container, mode: BuildKeys, p: LineIndexParts)
    requires IsIndexOf(c, mode, p)
    ensures forall parts :: IsIndexOf(c, mode, parts) ==> EncodedTotal(parts, mode.NgramMode?) == EncodedTotal(p, mode.NgramMode?)
  {
    hide IsIndexOf;
    forall parts | IsIndexOf(c, mode, parts)
      ensures EncodedTotal(parts, mode.NgramMode?) == EncodedTotal(p, mode.NgramMode?)
    {
      SearchExact.IndexIndependentOfChunks(c, c, mode, p, parts);
    }
  }

  /** Bytes of all encoded lists and skip points. */
  function EncodedTotal(parts: LineIndexParts, withSkips: bool): nat {
    EncodedBefore(parts.postings, |parts.postings|) + SkipsBefore(parts.postings, withSkips, |parts.postings|)
  }
}
