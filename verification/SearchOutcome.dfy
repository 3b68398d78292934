/** When a search is refused and why it stops, from list lengths, candidates and reads. */
module SearchOutcome {
  import opened Bytes
  import opened ChunkTable
  import opened ChunkCache
  import opened KeySets
  import opened Postings
  import opened Verification
  import opened Search
  import opened SearchTrace

  // ----- budgets -----

  function Sum(ns: seq<nat>): nat {
    if ns == [] then 0 else ns[0] + Sum(ns[1..])
  }

  /** The dictionary position, number of ids and number of encoded bytes of each key. */
  ghost predicate Sizes(x: Index, keys: seq<Key>, at: seq<nat>, ids: seq<nat>, bytes: seq<nat>)
    requires |x.postings| == |x.terms| == |x.encoded|
  {
    && |at| == |ids| == |bytes| == |keys|
    && forall i :: 0 <= i < |keys| ==> at[i] < |x.terms| && x.terms[at[i]] == keys[i] && ids[i] == |x.postings[at[i]]| && bytes[i] == |x.encoded[at[i]]|
  }

  lemma {:induction false} BudgetIsSum(x: Index, at: seq<nat>, ids: seq<nat>, bytes: seq<nat>)
    requires |x.postings| == |x.encoded| && |at| == |ids| == |bytes| && Bounded(at, |x.postings|)
    requires forall i :: 0 <= i < |at| ==> ids[i] == |x.postings[at[i]]| && bytes[i] == |x.encoded[at[i]]|
    ensures PostingIds(x, at) == Sum(ids) && PostingBytes(x, at) == Sum(bytes)
    decreases |at|
  {
    if at != [] { BudgetIsSum(x, at[1..], ids[1..], bytes[1..]); }
  }

  lemma {:induction false} PositionsAre(x: Index, keys: seq<Key>, at: seq<nat>, ids: seq<nat>, bytes: seq<nat>)
    requires WellFormed(x) && Sizes(x, keys, at, ids, bytes)
    ensures (forall k :: k in keys ==> k in x.terms) && Positions(x.terms, keys) == at
  {
    hide Positions, Less;
    forall k | k in keys ensures k in x.terms {
      var i :| 0 <= i < |keys| && keys[i] == k;
      assert x.terms[at[i]] == k;
    }
    var ixs := Positions(x.terms, keys);
    forall i | 0 <= i < |at| ensures ixs[i] == at[i] { SortedPosition(x.terms, ixs[i], at[i]); }
  }

  /**
   * A query whose posting lists hold more ids or more encoded bytes than allowed, or whose intersection
   * costs more work than allowed, is refused before anything is read.
   */
  lemma {:induction false} OverBudgetIsRefused(x: Index, c: Container, q: Query, keys: seq<Key>, order: PlanOrder, options: SearchOptions, at: seq<nat>, ids: seq<nat>, bytes: seq<nat>)
    requires c.Valid() && WellFormed(x) && keys != [] && Sizes(x, keys, at, ids, bytes)
    ensures Bounded(at, |x.postings|)
    ensures || Sum(ids) > options.maxPostingIds || Sum(bytes) > options.maxPostingBytes
            || IntersectionWork(ListsOf(x, PlanOf(x, order, at))) > options.maxPostingWork ==>
              SearchFor(x, c, q, keys, order, options).Err?
    ensures && Sum(ids) <= options.maxPostingIds && Sum(bytes) <= options.maxPostingBytes
            && IntersectionWork(ListsOf(x, PlanOf(x, order, at))) <= options.maxPostingWork ==>
              && InBudget(x, order, keys, options) && FirstMissing(x.terms, keys).None?
              && Candidates(x, order, keys) == Intersection(ListsOf(x, PlanOf(x, order, at)))
  {
    hide Positions, IntersectionWork, Intersection, PlanOf, Verified, PostingIds, PostingBytes, Sum;
    PositionsAre(x, keys, at, ids, bytes);
    BudgetIsSum(x, at, ids, bytes);
  }

  // ----- queries decided before anything is read -----

  lemma {:induction false} FirstMissingIs(terms: seq<Key>, keys: seq<Key>, i: nat)
    requires i < |keys| && keys[i] !in terms && forall j :: 0 <= j < i ==> keys[j] in terms
    ensures FirstMissing(terms, keys) == Some(keys[i])
  {
    if i > 0 {
      assert keys[0] in terms;
      FirstMissingIs(terms, keys[1..], i - 1);
    }
  }

  /** A report without hits, stop or work. */
  predicate Idle(r: Report) {
    r.hits == [] && r.stop.None? && r.candidateGranules == r.candidateChunks == r.decoded == r.bytes == r.chunks == 0
  }

  /**
   * Without keys the query is not indexable. A key missing from the dictionary, the first one in order,
   * ends the search; it is conclusive exactly in an index that holds every key.
   */
  lemma {:induction false} DecidedEarly(x: Index, c: Container, q: Query, keys: seq<Key>, order: PlanOrder, options: SearchOptions, i: nat)
    requires c.Valid() && WellFormed(x)
    ensures keys == [] ==>
              var r := SearchFor(x, c, q, keys, order, options);
              r.Ok? && Idle(r.value) && r.value.missing == None && r.value.incomplete == Some(NoIndexableKeys)
    ensures i < |keys| && keys[i] !in x.terms && (forall j :: 0 <= j < i ==> keys[j] in x.terms) ==>
              var r := SearchFor(x, c, q, keys, order, options);
              && r.Ok? && Idle(r.value) && r.value.missing == Some(keys[i])
              && r.value.incomplete == if x.complete then None else Some(MissingKeyInIncompleteIndex)
  {
    hide FirstMissing, InBudget, Verified, Candidates;
    if i < |keys| && keys[i] !in x.terms && (forall j :: 0 <= j < i ==> keys[j] in x.terms) { FirstMissingIs(x.terms, keys, i); }
  }

  // ----- stops -----

  /**
   * A search that is not refused stops for too many candidates exactly when there are more than
   * allowed; else it reports the run over them: its counters are those of the reads made, and it
   * stops for the limit that its hits reach or its next read would pass.
   */
  lemma {:induction false} SearchStops(x: Index, c: Container, q: Query, keys: seq<Key>, order: PlanOrder, options: SearchOptions) returns (n: nat)
    requires c.Valid() && WellFormed(x) && keys != [] && FirstMissing(x.terms, keys).None?
    requires SearchFor(x, c, q, keys, order, options).Ok?
    ensures forall i :: 0 <= i < |Candidates(x, order, keys)| ==> Candidates(x, order, keys)[i] < |x.granules|
    ensures var gs, r := Selected(x.granules, Candidates(x, order, keys)), SearchFor(x, c, q, keys, order, options).value;
            && AllOk(c, gs) && r.candidateGranules == |gs| && r.candidateChunks == |Covered(SpansOf(gs))|
            && (r.stop == Some(CandidateGranules) <==> |gs| > options.maxCandidates)
            && (|gs| > options.maxCandidates || options.limits.maxResults == 0 ==> r.hits == [] && r.decoded == r.bytes == r.chunks == 0)
            && (|gs| <= options.maxCandidates && options.limits.maxResults == 0 ==> r.stop == Some(SearchResults))
            && (|gs| <= options.maxCandidates && options.limits.maxResults > 0 ==> Reported(c, q, gs, options.limits, n, r))
  {
    hide VerifyAll, Candidates, Tiles, Covered, InBudget, Reads, FullHits, Refused, Logical, Loads, LoadedBytes, Trail, RunsTo;
    CandidatesInRange(x, order, keys);
    var gs := Selected(x.granules, Candidates(x, order, keys));
    n := 0;
    if |gs| <= options.maxCandidates && options.limits.maxResults > 0 {
      var k, m := RunOutcome(c, q, gs, options.limits);
      n := m;
      NeverCandidates(c, options.limits);
    }
  }

  /** A report on the first `n` reads. */
  ghost predicate Reported(c: Container, q: Query, gs: seq<SearchGranule>, lim: Limits, n: nat, r: Report)
    requires c.Valid() && AllOk(c, gs)
  {
    var all := Reads(c, q, gs);
    && n <= |all| && AllRanges(c, all[..n]) && InTable(c, Trail(c, all[..n]))
    && r.decoded == Logical(all[..n]) && r.chunks == Loads(Trail(c, all[..n])) && r.bytes == LoadedBytes(c, Trail(c, all[..n]))
    && (r.stop.None? <==> n == |all| && |r.hits| < lim.maxResults)
    && (r.stop == Some(SearchResults) <==> |r.hits| == lim.maxResults)
    && forall cap: Cap :: !cap.SearchResults? ==> (r.stop == Some(cap) <==> |r.hits| < lim.maxResults && n < |all| && Refused(c, lim, all[..n], all[n], cap))
  }

  /** The number of candidates is no limit on reads. */
  lemma {:induction false} NeverCandidates(c: Container, lim: Limits)
    requires c.Valid()
    ensures forall rs, r :: !Refused(c, lim, rs, r, CandidateGranules)
  {
    hide Tiles, Trail, ChunkIds, Logical, Loads, LoadedBytes;
  }
}
