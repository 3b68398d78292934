/** Searching a raw index: key lookup, posting plan, candidate checks, verification. */
module Search {
  import opened Bytes
  import opened ChunkTable
  import opened ChunkCache
  import opened KeySets
  import opened Tokens
  import opened Ngrams
  import opened Delta
  import opened Postings
  import opened Verification
  import Utf8

  datatype SearchOptions = SearchOptions(
    maxQueryBytes: U64, maxQueryTerms: U64, maxPostingBytes: U64, maxPostingIds: U64, maxPostingWork: U64,
    maxCandidates: U64, limits: Limits)

  /** A materialized index: granules, sorted terms, and parallel posting lists with their encodings. */
  datatype Index = Index(
    granules: seq<SearchGranule>, terms: seq<Key>, postings: seq<seq<U64>>, encoded: seq<seq<Byte>>, complete: bool)

  /** What constructing an index checks, whatever its content. */
  ghost predicate WellFormed(x: Index) {
    && |x.postings| == |x.terms| == |x.encoded|
    && Sorted(x.terms)
    && AllIncreasing(x.postings)
    && forall i :: 0 <= i < |x.postings| ==> IdsBelow(x.postings[i], |x.granules|)
  }

  predicate IdsBelow(list: seq<U64>, n: nat) { |list| <= U64_MAX && forall i :: 0 <= i < |list| ==> list[i] < n }

  datatype Reason = NoIndexableKeys | MissingKeyInIncompleteIndex

  datatype Report = Report(
    hits: seq<SearchHit>, stop: Option<Cap>, missing: Option<Key>, incomplete: Option<Reason>,
    candidateGranules: nat, candidateChunks: nat, decoded: nat, bytes: nat, chunks: nat)

  /** A report without hits, for a query decided before any candidate is read. */
  function EarlyExit(stop: Option<Cap>, missing: Option<Key>, incomplete: Option<Reason>, granules: nat, chunks: nat): Report {
    Report([], stop, missing, incomplete, granules, chunks, 0, 0, 0)
  }

  // ----- lookup -----

  function IndexOf(terms: seq<Key>, k: Key, from: nat := 0): (r: Option<nat>)
    requires from <= |terms|
    ensures r.Some? ==> from <= r.value < |terms| && terms[r.value] == k
    ensures r.None? ==> forall i :: from <= i < |terms| ==> terms[i] != k
    decreases |terms| - from
  {
    if from == |terms| then None else if terms[from] == k then Some(from) else IndexOf(terms, k, from + 1)
  }

  /** The first query key the dictionary lacks. */
  function FirstMissing(terms: seq<Key>, keys: seq<Key>): (r: Option<Key>)
    ensures r.Some? ==> r.value in keys && r.value !in terms
    ensures r.None? ==> forall k :: k in keys ==> k in terms
  {
    if keys == [] then None else if keys[0] !in terms then Some(keys[0]) else FirstMissing(terms, keys[1..])
  }

  /** Dictionary positions of keys that are all present. */
  function Positions(terms: seq<Key>, keys: seq<Key>): (ixs: seq<nat>)
    requires forall k :: k in keys ==> k in terms
    ensures |ixs| == |keys| && forall i :: 0 <= i < |ixs| ==> ixs[i] < |terms| && terms[ixs[i]] == keys[i]
  {
    if keys == [] then []
    else
      assert keys[0] in terms;
      [IndexOf(terms, keys[0]).value] + Positions(terms, keys[1..])
  }

  lemma {:induction false} SortedPosition(terms: seq<Key>, i: nat, j: nat)
    requires Sorted(terms) && i < |terms| && j < |terms| && terms[i] == terms[j]
    ensures i == j
  {
    LessIrreflexive(terms[i]);
  }

  // ----- plan order -----

  /** Token plans go by list length; n-gram plans put frequent terms last, then go by length. */
  datatype PlanOrder = ByLength | ByFrequency(highPerMillion: nat)

  function Rank(x: Index, order: PlanOrder, i: nat): (bool, nat)
    requires i < |x.postings|
  {
    var frequency := |x.postings[i]|;
    match order
    case ByLength => (false, frequency)
    case ByFrequency(high) => (frequency * 1_000_000 / Max(|x.granules|, 1) >= high, frequency)
  }

  predicate Before(a: (bool, nat), b: (bool, nat)) { (!a.0 && b.0) || (a.0 == b.0 && a.1 <= b.1) }

  predicate Bounded(ixs: seq<nat>, n: nat) { forall i :: 0 <= i < |ixs| ==> ixs[i] < n }

  /** Stable insertion, one of the orders a stable sort by rank gives. */
  function Place(x: Index, order: PlanOrder, ix: nat, sorted: seq<nat>): (r: seq<nat>)
    requires ix < |x.postings| && Bounded(sorted, |x.postings|)
    ensures Bounded(r, |x.postings|)
    ensures multiset(r) == multiset(sorted) + multiset{ix}
  {
    if sorted == [] || Before(Rank(x, order, ix), Rank(x, order, sorted[0])) then [ix] + sorted
    else
      assert sorted == [sorted[0]] + sorted[1..];
      [sorted[0]] + Place(x, order, ix, sorted[1..])
  }

  function PlanOf(x: Index, order: PlanOrder, ixs: seq<nat>): (r: seq<nat>)
    requires Bounded(ixs, |x.postings|)
    ensures Bounded(r, |x.postings|)
    ensures multiset(r) == multiset(ixs)
  {
    if ixs == [] then []
    else
      assert ixs == [ixs[0]] + ixs[1..];
      Place(x, order, ixs[0], PlanOf(x, order, ixs[1..]))
  }

  predicate Ranked(x: Index, order: PlanOrder, ixs: seq<nat>)
    requires Bounded(ixs, |x.postings|)
  {
    forall i, j :: 0 <= i < j < |ixs| ==> Before(Rank(x, order, ixs[i]), Rank(x, order, ixs[j]))
  }

  lemma {:induction false} PlaceRanked(x: Index, order: PlanOrder, ix: nat, sorted: seq<nat>)
    requires ix < |x.postings| && Bounded(sorted, |x.postings|) && Ranked(x, order, sorted)
    ensures Ranked(x, order, Place(x, order, ix, sorted))
    decreases |sorted|
  {
    hide Rank;
    var r := Place(x, order, ix, sorted);
    if sorted != [] && !Before(Rank(x, order, ix), Rank(x, order, sorted[0])) {
      PlaceRanked(x, order, ix, sorted[1..]);
      var rest := Place(x, order, ix, sorted[1..]);
      forall y | y in rest ensures Before(Rank(x, order, sorted[0]), Rank(x, order, y)) {
        assert y in multiset(rest);
        if y != ix { var k :| 0 <= k < |sorted[1..]| && sorted[1..][k] == y; assert sorted[k + 1] == y; }
      }
      assert r == [sorted[0]] + rest;
    }
  }

  /** The plan lists rarer terms first; in an n-gram plan the frequent ones come last. */
  lemma {:induction false} PlanRanked(x: Index, order: PlanOrder, ixs: seq<nat>)
    requires Bounded(ixs, |x.postings|)
    ensures Ranked(x, order, PlanOf(x, order, ixs))
    decreases |ixs|
  {
    if ixs != [] {
      PlanRanked(x, order, ixs[1..]);
      PlaceRanked(x, order, ixs[0], PlanOf(x, order, ixs[1..]));
    }
  }

  function ListsOf(x: Index, ixs: seq<nat>): (lists: seq<seq<U64>>)
    requires Bounded(ixs, |x.postings|)
    ensures |lists| == |ixs| && forall i :: 0 <= i < |ixs| ==> lists[i] == x.postings[ixs[i]]
  {
    seq(|ixs|, i requires 0 <= i < |ixs| => x.postings[ixs[i]])
  }

  /** Encoded bytes and ids of the chosen lists. */
  function PostingBytes(x: Index, ixs: seq<nat>): nat
    requires Bounded(ixs, |x.encoded|)
  {
    if ixs == [] then 0 else |x.encoded[ixs[0]]| + PostingBytes(x, ixs[1..])
  }

  function PostingIds(x: Index, ixs: seq<nat>): nat
    requires Bounded(ixs, |x.postings|)
  {
    if ixs == [] then 0 else |x.postings[ixs[0]]| + PostingIds(x, ixs[1..])
  }

  /** `check_raw_posting_budget` accepts exactly within both budgets. */
  method CheckPostingBudget(x: Index, ixs: seq<nat>, options: SearchOptions) returns (ok: bool)
    requires Bounded(ixs, |x.postings|) && Bounded(ixs, |x.encoded|)
    ensures ok <==> ixs == [] || (PostingBytes(x, ixs) <= options.maxPostingBytes && PostingIds(x, ixs) <= options.maxPostingIds)
  {
    var bytes, ids := 0, 0;
    assert ixs[0..] == ixs;
    for i := 0 to |ixs|
      invariant bytes >= 0 && ids >= 0
      invariant bytes + PostingBytes(x, ixs[i..]) == PostingBytes(x, ixs)
      invariant ids + PostingIds(x, ixs[i..]) == PostingIds(x, ixs)
      invariant i > 0 ==> bytes <= options.maxPostingBytes && ids <= options.maxPostingIds
    {
      assert ixs[i..][1..] == ixs[i + 1..] && ixs[i..][0] == ixs[i];
      bytes := bytes + |x.encoded[ixs[i]]|;
      ids := ids + |x.postings[ixs[i]]|;
      if bytes > options.maxPostingBytes || ids > options.maxPostingIds { return false; }
    }
    return true;
  }

  // ----- candidates -----

  ghost function SpansOf(gs: seq<SearchGranule>): (r: seq<ChunkSpan>)
    ensures |r| == |gs| && forall i :: 0 <= i < |gs| ==> r[i] == (gs[i].chunkStart, gs[i].chunkEnd)
  {
    seq(|gs|, i requires 0 <= i < |gs| => (gs[i].chunkStart, gs[i].chunkEnd))
  }

  /** `count_candidate_chunks`: validates every candidate, then counts the chunks they cover. */
  method CountCandidateChunks(c: Container, granules: seq<SearchGranule>, candidates: seq<U64>) returns (r: Result<U64>)
    requires c.Valid() && forall i :: 0 <= i < |candidates| ==> candidates[i] < |granules|
    ensures r.Ok? <==> AllOk(c, Selected(granules, candidates))
    ensures r.Ok? ==> r.value == |Covered(SpansOf(Selected(granules, candidates)))|
  {
    hide Covered, FirstChunk, PastChunk, Tiles;
    ghost var gs := Selected(granules, candidates);
    var spans: seq<ChunkSpan> := [];
    for i := 0 to |candidates|
      invariant AllOk(c, gs[..i])
      invariant |spans| == i && forall k :: 0 <= k < i ==> spans[k] == (gs[k].chunkStart, gs[k].chunkEnd)
      invariant forall k :: 0 <= k < i ==> spans[k].0 < spans[k].1
    {
      var g := granules[candidates[i]];
      var ok := ValidateGranuleChunkSpan(c, g);
      assert g == gs[i];
      if !ok { return Err; }
      RangeChunks(c, g.logicalOffset, g.End());
      spans := spans + [(g.chunkStart, g.chunkEnd)];
    }
    assert gs[..|candidates|] == gs;
    assert spans == SpansOf(gs);
    r := CountChunkSpans(spans);
  }

  // ----- the whole search -----

  /** The candidate lines: ids in the posting lists of every key. */
  function Candidates(x: Index, order: PlanOrder, keys: seq<Key>): seq<U64>
    requires |x.postings| == |x.terms| && forall k :: k in keys ==> k in x.terms
  {
    Intersection(ListsOf(x, PlanOf(x, order, Positions(x.terms, keys))))
  }

  ghost predicate InBudget(x: Index, order: PlanOrder, keys: seq<Key>, options: SearchOptions)
    requires |x.postings| == |x.terms| == |x.encoded| && forall k :: k in keys ==> k in x.terms
  {
    var plan := PlanOf(x, order, Positions(x.terms, keys));
    && PostingBytes(x, Positions(x.terms, keys)) <= options.maxPostingBytes
    && PostingIds(x, Positions(x.terms, keys)) <= options.maxPostingIds
    && IntersectionWork(ListsOf(x, plan)) <= options.maxPostingWork
  }

  /** Verification of the candidates, unless their number or the result limit forbids it. */
  ghost function Verified(c: Container, q: Query, gs: seq<SearchGranule>, options: SearchOptions): Result<Report>
    requires c.Valid()
  {
    if !AllOk(c, gs) then Err
    else
      var chunks := |Covered(SpansOf(gs))|;
      if |gs| > options.maxCandidates then Ok(EarlyExit(Some(CandidateGranules), None, None, |gs|, chunks))
      else if options.limits.maxResults == 0 then Ok(EarlyExit(Some(SearchResults), None, None, |gs|, chunks))
      else match VerifyAll(c, q, gs, options.limits, START)
        case Err => Err
        case Ok(p) => Ok(Report(p.hits, p.stop, None, None, |gs|, chunks, p.decoded, p.cache.bytes, p.cache.chunks))
  }

  /** A search for given query keys. */
  ghost function SearchFor(x: Index, c: Container, q: Query, keys: seq<Key>, order: PlanOrder, options: SearchOptions): Result<Report>
    requires c.Valid() && WellFormed(x)
  {
    if keys == [] then Ok(EarlyExit(None, None, Some(NoIndexableKeys), 0, 0))
    else match FirstMissing(x.terms, keys)
      case Some(k) => Ok(EarlyExit(None, Some(k), if x.complete then None else Some(MissingKeyInIncompleteIndex), 0, 0))
      case None =>
        if !InBudget(x, order, keys, options) then Err
        else
          CandidatesInRange(x, order, keys);
          Verified(c, q, Selected(x.granules, Candidates(x, order, keys)), options)
  }

  lemma {:induction false} CandidatesInRange(x: Index, order: PlanOrder, keys: seq<Key>)
    requires WellFormed(x) && forall k :: k in keys ==> k in x.terms
    ensures forall i :: 0 <= i < |Candidates(x, order, keys)| ==> Candidates(x, order, keys)[i] < |x.granules|
    ensures Increasing(Candidates(x, order, keys)) && |Candidates(x, order, keys)| <= U64_MAX
  {
    hide Intersection, Positions, PlanOf, Sorted;
    var lists := ListsOf(x, PlanOf(x, order, Positions(x.terms, keys)));
    if lists != [] {
      assert AllIncreasing(lists);
      IntersectionExact(lists);
      FirstHasAll(lists);
      forall i | 0 <= i < |Intersection(lists)| ensures Intersection(lists)[i] < |x.granules| {
        var v := Intersection(lists)[i];
        assert InAll(lists, v) && v in lists[0];
      }
    } else {
      NoLists();
    }
  }

  lemma {:induction false} NoLists()
    ensures Intersection([]) == []
  {
  }

  lemma {:induction false} FirstHasAll(lists: seq<seq<U64>>)
    requires lists != []
    ensures |Intersection(lists)| <= |lists[0]|
  {
    MergeShrinks(lists[0], lists[1..]);
  }

  lemma {:induction false} MergeShrinks(current: seq<U64>, lists: seq<seq<U64>>)
    ensures |MergeAll(current, lists)| <= |current|
    decreases |lists|
  {
    hide Common;
    if lists != [] { CommonSmaller(current, lists[0]); MergeShrinks(Common(current, lists[0]), lists[1..]); }
  }

  /** The budget is the same for the keys in query order and in plan order. */
  lemma {:induction false} BudgetOfPlan(x: Index, order: PlanOrder, ixs: seq<nat>)
    requires Bounded(ixs, |x.postings|) && |x.encoded| == |x.postings|
    ensures PostingBytes(x, PlanOf(x, order, ixs)) == PostingBytes(x, ixs)
    ensures PostingIds(x, PlanOf(x, order, ixs)) == PostingIds(x, ixs)
    decreases |ixs|
  {
    if ixs != [] {
      BudgetOfPlan(x, order, ixs[1..]);
      BudgetOfPlace(x, order, ixs[0], PlanOf(x, order, ixs[1..]));
    }
  }

  lemma {:induction false} BudgetOfPlace(x: Index, order: PlanOrder, ix: nat, sorted: seq<nat>)
    requires ix < |x.postings| && Bounded(sorted, |x.postings|) && |x.encoded| == |x.postings|
    ensures PostingBytes(x, Place(x, order, ix, sorted)) == |x.encoded[ix]| + PostingBytes(x, sorted)
    ensures PostingIds(x, Place(x, order, ix, sorted)) == |x.postings[ix]| + PostingIds(x, sorted)
    decreases |sorted|
  {
    if sorted == [] || Before(Rank(x, order, ix), Rank(x, order, sorted[0])) {
      assert ([ix] + sorted)[1..] == sorted;
    } else {
      BudgetOfPlace(x, order, ix, sorted[1..]);
      var rest := Place(x, order, ix, sorted[1..]);
      assert ([sorted[0]] + rest)[1..] == rest;
    }
  }

  /** Looks every key up by binary search; stops at the first one missing. */
  method LookupKeys(terms: seq<Key>, keys: seq<Key>) returns (missing: Option<Key>, ixs: seq<nat>)
    requires Sorted(terms)
    ensures missing == FirstMissing(terms, keys)
    ensures missing.None? ==> ixs == Positions(terms, keys)
  {
    hide Less, Sorted;
    ixs := [];
    assert keys[0..] == keys;
    for i := 0 to |keys|
      invariant FirstMissing(terms, keys) == FirstMissing(terms, keys[i..])
      invariant forall k :: k in keys[..i] ==> k in terms
      invariant ixs == Positions(terms, keys[..i])
    {
      assert keys[i..][1..] == keys[i + 1..] && keys[i..][0] == keys[i];
      var found := IndexForKey(terms, keys[i]);
      if found.None? { return Some(keys[i]), ixs; }
      assert keys[..i + 1] == keys[..i] + [keys[i]];
      assert keys[i] in terms;
      SortedPosition(terms, found.value, IndexOf(terms, keys[i]).value);
      PositionsSnoc(terms, keys[..i], keys[i]);
      ixs := ixs + [found.value];
    }
    assert keys[..|keys|] == keys;
    missing := None;
  }

  lemma {:induction false} PositionsSnoc(terms: seq<Key>, keys: seq<Key>, k: Key)
    requires (forall x :: x in keys ==> x in terms) && k in terms
    ensures Positions(terms, keys + [k]) == Positions(terms, keys) + [IndexOf(terms, k).value]
    decreases |keys|
  {
    if keys == [] {
      assert keys + [k] == [k];
      assert [k][1..] == [];
    } else {
      assert (keys + [k])[1..] == keys[1..] + [k];
      PositionsSnoc(terms, keys[1..], k);
    }
  }

  /** The part both searches share: lookup, budgets, plan, intersection, candidate checks, verification. */
  method SearchKeys(x: Index, c: Container, q: Query, keys: seq<Key>, order: PlanOrder, options: SearchOptions) returns (r: Result<Report>)
    requires c.Valid() && WellFormed(x)
    ensures r == SearchFor(x, c, q, keys, order, options)
  {
    hide Less, Sorted, Intersection, IntersectionWork, FirstMissing, PlanOf, AllIncreasing, Tiles, Verified, PostingBytes, PostingIds;
    if keys == [] { return Ok(EarlyExit(None, None, Some(NoIndexableKeys), 0, 0)); }
    var missing, ixs := LookupKeys(x.terms, keys);
    if missing.Some? {
      return Ok(EarlyExit(None, missing, if x.complete then None else Some(MissingKeyInIncompleteIndex), 0, 0));
    }
    CandidatesInRange(x, order, keys);
    var affordable := CheckPostingBudget(x, ixs, options);
    if !affordable { return Err; }
    var plan := PlanOf(x, order, ixs);
    var candidates := IntersectPostings(ListsOf(x, plan), options.maxPostingWork);
    if candidates.Err? { return Err; }
    r := CheckAndVerify(x, c, q, candidates.value, options);
  }

  method CheckAndVerify(x: Index, c: Container, q: Query, candidates: seq<U64>, options: SearchOptions) returns (r: Result<Report>)
    requires c.Valid() && (forall i :: 0 <= i < |candidates| ==> candidates[i] < |x.granules|)
    ensures r == Verified(c, q, Selected(x.granules, candidates), options)
  {
    hide Covered, VerifyAll, Tiles;
    var chunks := CountCandidateChunks(c, x.granules, candidates);
    if chunks.Err? { return Err; }
    if |candidates| > options.maxCandidates {
      return Ok(EarlyExit(Some(CandidateGranules), None, None, |candidates|, chunks.value));
    }
    if options.limits.maxResults == 0 {
      return Ok(EarlyExit(Some(SearchResults), None, None, |candidates|, chunks.value));
    }
    var v := VerifyCandidates(c, q, x.granules, candidates, options.limits);
    if v.Err? { return Err; }
    var (hits, stop, decoded, bytes, physical) := v.value;
    return Ok(Report(hits, stop, None, None, |candidates|, chunks.value, decoded, bytes, physical));
  }

  ghost function TokenSearchFor(x: Index, c: Container, query: seq<Byte>, options: SearchOptions): Result<Report>
    requires c.Valid() && WellFormed(x)
  {
    match QueryKeys(query, options.maxQueryBytes, options.maxQueryTerms)
    case Err => Err
    case Ok(keys) => SearchFor(x, c, TokenQuery(keys), keys, ByLength, options)
  }

  /** `RawTokenIndex::search` */
  method TokenSearch(x: Index, c: Container, query: seq<Byte>, options: SearchOptions) returns (r: Result<Report>)
    requires c.Valid() && WellFormed(x)
    ensures r == TokenSearchFor(x, c, query, options)
  {
    var keys := UniqueQueryKeys(query, options.maxQueryBytes, options.maxQueryTerms);
    if keys.Err? { return Err; }
    r := SearchKeys(x, c, TokenQuery(keys.value), keys.value, ByLength, options);
  }

  ghost function NgramSearchFor(x: Index, c: Container, query: seq<Byte>, n: nat, highPerMillion: nat, options: SearchOptions): Result<Report>
    requires c.Valid() && WellFormed(x) && Utf8.Valid(query)
  {
    match NgramQueryKeys(query, n, options.maxQueryBytes, options.maxQueryTerms)
    case Err => Err
    case Ok(keys) => SearchFor(x, c, SubstringQuery(query), keys, ByFrequency(highPerMillion), options)
  }

  /** `RawNgramIndex::search`; a query is a string, so it is valid UTF-8. */
  method NgramSearch(x: Index, c: Container, query: seq<Byte>, n: nat, highPerMillion: nat, options: SearchOptions) returns (r: Result<Report>)
    requires c.Valid() && WellFormed(x) && Utf8.Valid(query)
    ensures r == NgramSearchFor(x, c, query, n, highPerMillion, options)
  {
    var keys := NgramKeysForQuery(query, n, options.maxQueryBytes, options.maxQueryTerms);
    if keys.Err? { return Err; }
    r := SearchKeys(x, c, SubstringQuery(query), keys.value, ByFrequency(highPerMillion), options);
  }
}
