/**
 * What searches mean: sound against any index, exact against the index the
 * builder makes, and a prefix under any limits.
 */
module SearchExact {
  import opened Bytes
  import opened Lines
  import opened ChunkTable
  import opened ChunkCache
  import opened KeySets
  import opened Tokens
  import opened TokenMatch
  import opened TokenMeaning
  import opened TokenCase
  import opened Ngrams
  import opened Delta
  import opened Postings
  import opened PostingStream
  import opened LineIndex
  import opened Verification
  import opened Search
  import Utf8

  // ----- hits come from candidates -----

  lemma {:induction false} FullHitFrom(c: Container, q: Query, gs: seq<SearchGranule>, h: SearchHit) returns (i: nat, m: Match)
    requires AllOk(c, gs) && h in FullHits(c, q, gs)
    ensures i < |gs| && m in GranuleMatches(c, q, gs[i])
    ensures h.logicalOffset == gs[i].logicalOffset + m.start && h.byteLength == m.end - m.start
    ensures h.chunkStart == gs[i].chunkStart && h.chunkEnd == gs[i].chunkEnd
    decreases |gs|
  {
    hide GranuleMatches, GranuleOk;
    assert GranuleOk(c, gs[0]) && gs[0].End() <= |c.text| by { OkFits(c, gs[0]); }
    var here := GranuleHits(c, q, gs[0]);
    if h in here {
      var j :| 0 <= j < |here| && here[j] == h;
      i, m := 0, GranuleMatches(c, q, gs[0])[j];
    } else {
      var k;
      k, m := FullHitFrom(c, q, gs[1..], h);
      i := k + 1;
    }
  }

  lemma {:induction false} OkFits(c: Container, g: SearchGranule)
    requires GranuleOk(c, g)
    ensures 0 < g.byteLength && g.End() <= |c.text|
  {
  }

  lemma {:induction false} FullHitsHold(c: Container, q: Query, gs: seq<SearchGranule>, i: nat, h: SearchHit)
    requires AllOk(c, gs) && i < |gs| && gs[i].End() <= |c.text| && h in GranuleHits(c, q, gs[i])
    ensures h in FullHits(c, q, gs)
    decreases |gs|
  {
    hide GranuleHits;
    if i > 0 { FullHitsHold(c, q, gs[1..], i - 1, h); }
  }

  /** Every reported hit is a hit of some validated candidate. */
  lemma {:induction false} ReportedHit(x: Index, c: Container, q: Query, keys: seq<Key>, order: PlanOrder, options: SearchOptions, h: SearchHit)
    returns (g: SearchGranule, m: Match)
    requires c.Valid() && WellFormed(x) && SearchFor(x, c, q, keys, order, options).Ok?
    requires h in SearchFor(x, c, q, keys, order, options).value.hits
    ensures g in x.granules && GranuleOk(c, g) && g.End() <= |c.text| && m in GranuleMatches(c, q, g)
    ensures h.logicalOffset == g.logicalOffset + m.start && h.byteLength == m.end - m.start
    ensures h.chunkStart == g.chunkStart && h.chunkEnd == g.chunkEnd
  {
    hide InBudget, VerifyAll, FullHits, GranuleMatches, Candidates, Within, Tiles;
    CandidatesInRange(x, order, keys);
    var gs := Selected(x.granules, Candidates(x, order, keys));
    StartWithin(c, options.limits);
    CappedRunIsPrefix(c, q, gs, options.limits, START);
    assert START.hits + FullHits(c, q, gs) == FullHits(c, q, gs);
    var i;
    i, m := FullHitFrom(c, q, gs, h);
    g := gs[i];
  }

  /** A hit lies inside its candidate and names the chunks of it, which hold the hit's bytes. */
  lemma {:induction false} HitChunks(x: Index, c: Container, q: Query, keys: seq<Key>, order: PlanOrder, options: SearchOptions, h: SearchHit)
    returns (g: SearchGranule)
    requires c.Valid() && WellFormed(x) && SearchFor(x, c, q, keys, order, options).Ok?
    requires h in SearchFor(x, c, q, keys, order, options).value.hits
    ensures g in x.granules && GranuleOk(c, g) && g.logicalOffset <= h.logicalOffset <= h.logicalOffset + h.byteLength <= g.End() <= |c.text|
    ensures h.chunkStart == FirstChunk(c, g.logicalOffset) < h.chunkEnd == PastChunk(c, g.End()) <= |c.entries|
    ensures c.entries[h.chunkStart].logicalOffset <= h.logicalOffset && h.logicalOffset + h.byteLength <= c.entries[h.chunkEnd - 1].LogicalEnd()
  {
    hide SearchFor, WellFormed, Tiles, Spans, FirstChunk, PastChunk;
    var m;
    g, m := ReportedHit(x, c, q, keys, order, options, h);
    SpansFit(q, c.text[g.logicalOffset..g.End()], LeftContinues(c, q, g), RightContinues(c, q, g), m);
    RangeChunks(c, g.logicalOffset, g.End());
  }

  // ----- soundness against any index -----

  lemma {:induction false} GranuleFlags(c: Container, q: Query, g: SearchGranule)
    requires q.TokenQuery? && 0 < g.byteLength && g.End() <= |c.text|
    ensures Flags(c.text, g.logicalOffset, g.End(), LeftContinues(c, q, g), RightContinues(c, q, g))
  {
  }

  /**
   * Whatever the index claims, a token hit is a token of the original text spelled like a token of
   * the query up to the case of ASCII letters, on a line that holds all of the query's tokens.
   */
  lemma {:induction false} TokenHitsAreSound(x: Index, c: Container, query: seq<Byte>, options: SearchOptions, h: SearchHit)
    requires c.Valid() && WellFormed(x) && TokenSearchFor(x, c, query, options).Ok?
    requires h in TokenSearchFor(x, c, query, options).value.hits
    ensures h.byteLength > 0 && PlainHit(c.text, query, h.logicalOffset, h.logicalOffset + h.byteLength)
  {
    hide *;
    TokenSearchIs(x, c, query, options);
    var keys := QueryKeys(query, options.maxQueryBytes, options.maxQueryTerms).value;
    var q := TokenQuery(keys);
    var g, m := ReportedHit(x, c, q, keys, ByLength, options, h);
    OkFits(c, g);
    GranuleFlags(c, q, g);
    TokenMatchesOf(c, keys, g);
    GranuleSpanIsHit(c.text, g.logicalOffset, g.End(), keys, LeftContinues(c, q, g), RightContinues(c, q, g), m);
    QueryKeysAsked(query, options);
    PlainHitIff(c.text, query, keys, h.logicalOffset, h.logicalOffset + h.byteLength);
  }

  lemma {:induction false} QueryKeysAsked(query: seq<Byte>, options: SearchOptions)
    requires QueryKeys(query, options.maxQueryBytes, options.maxQueryTerms).Ok?
    ensures KeysAsked(query, QueryKeys(query, options.maxQueryBytes, options.maxQueryTerms).value)
  {
    hide QueryKeys, HasToken, Folded;
    QueryKeysFolded(query, options);
  }

  lemma {:induction false} TokenSearchIs(x: Index, c: Container, query: seq<Byte>, options: SearchOptions)
    requires c.Valid() && WellFormed(x) && TokenSearchFor(x, c, query, options).Ok?
    ensures QueryKeys(query, options.maxQueryBytes, options.maxQueryTerms).Ok?
    ensures var keys := QueryKeys(query, options.maxQueryBytes, options.maxQueryTerms).value;
            TokenSearchFor(x, c, query, options) == SearchFor(x, c, TokenQuery(keys), keys, ByLength, options)
  {
    hide SearchFor, QueryKeys, Tiles, WellFormed;
  }

  lemma {:induction false} TokenMatchesOf(c: Container, keys: seq<Key>, g: SearchGranule)
    requires g.End() <= |c.text|
    ensures var q := TokenQuery(keys);
            GranuleMatches(c, q, g) == GranuleSpans(c.text[g.logicalOffset..g.End()], keys, LeftContinues(c, q, g), RightContinues(c, q, g), 0)
  {
  }

  /** Whatever the index claims, an n-gram hit is an occurrence of the query bytes. */
  lemma {:induction false} NgramHitsAreSound(x: Index, c: Container, query: seq<Byte>, n: nat, high: nat, options: SearchOptions, h: SearchHit)
    requires c.Valid() && WellFormed(x) && Utf8.Valid(query) && NgramSearchFor(x, c, query, n, high, options).Ok?
    requires h in NgramSearchFor(x, c, query, n, high, options).value.hits
    ensures query != [] && h.byteLength == |query| && Occurs(c.text, query, h.logicalOffset)
  {
    hide SearchFor, NgramQueryKeys, GranuleOk, Occurrences, Utf8.Valid;
    var keys := NgramQueryKeys(query, n, options.maxQueryBytes, options.maxQueryTerms).value;
    var g, m := ReportedHit(x, c, SubstringQuery(query), keys, ByFrequency(high), options, h);
    var bytes := c.text[g.logicalOffset..g.End()];
    assert query != [] by { if query == [] { NoQueryNoSpans(bytes); } }
    OccurrencesExact(bytes, query, 0);
    OccursInSlice(c.text, g.logicalOffset, g.End(), query, m.start);
  }

  lemma {:induction false} OccursInSlice(t: seq<Byte>, lo: nat, hi: nat, query: seq<Byte>, p: nat)
    requires lo <= hi <= |t|
    ensures Occurs(t[lo..hi], query, p) <==> lo + p + |query| <= hi && Occurs(t, query, lo + p)
  {
    if p + |query| <= hi - lo { SliceOfSlice(t, lo, hi, lo + p, lo + p + |query|); }
  }

  // ----- the built index -----

  /** The index holds what the builder computes for the text. */
  ghost predicate Built(c: Container, mode: BuildKeys, x: Index) {
    IsIndexOf(c, mode, LineIndexParts(x.granules, x.terms, x.postings, NoFlags(|x.terms|)))
  }

  /** Line `id` has every key. */
  ghost predicate HasAllKeys(c: Container, mode: BuildKeys, keys: seq<Key>, id: nat)
    requires id < |LinesFrom(c.text, 0)| && SpansIn(c.text, LinesFrom(c.text, 0))
  {
    forall k :: k in keys ==> k in LineKeys(mode, LineBytes(c.text, LinesFrom(c.text, 0)[id]))
  }

  lemma {:induction false} BuiltOpen(c: Container, mode: BuildKeys, x: Index)
    requires Built(c, mode, x)
    ensures SpansIn(c.text, LinesFrom(c.text, 0)) && |x.postings| == |x.terms|
    ensures AreLineGranules(c, x.granules, LinesFrom(c.text, 0))
    ensures x.terms == Dictionary(Stream(mode, c.text, LinesFrom(c.text, 0)))
    ensures forall i :: 0 <= i < |x.terms| ==> x.postings[i] == PostingsOf(Stream(mode, c.text, LinesFrom(c.text, 0)), x.terms[i])
  {
    hide LinesFrom, Stream, Dictionary, PostingsOf, AreLineGranules;
  }

  /** A dictionary key's posting list is exactly the lines that have the key. */
  lemma {:induction false} BuiltPosting(c: Container, mode: BuildKeys, x: Index, i: nat, id: U64)
    requires Built(c, mode, x) && i < |x.terms|
    ensures SpansIn(c.text, LinesFrom(c.text, 0)) && |x.postings| == |x.terms| && Increasing(x.postings[i])
    ensures id in x.postings[i] <==>
              (id < |LinesFrom(c.text, 0)| && x.terms[i] in LineKeys(mode, LineBytes(c.text, LinesFrom(c.text, 0)[id])))
  {
    hide *;
    BuiltOpen(c, mode, x);
    var ls := LinesFrom(c.text, 0);
    StreamExact(mode, c.text, ls);
    PostingsExact(Stream(mode, c.text, ls), x.terms[i]);
  }

  /** A key of some line is in the dictionary. */
  lemma {:induction false} BuiltTerm(c: Container, mode: BuildKeys, x: Index, id: U64, k: Key)
    requires Built(c, mode, x) && SpansIn(c.text, LinesFrom(c.text, 0)) && id < |LinesFrom(c.text, 0)|
    requires k in LineKeys(mode, LineBytes(c.text, LinesFrom(c.text, 0)[id]))
    ensures k in x.terms
  {
    hide *;
    BuiltOpen(c, mode, x);
    var stream := Stream(mode, c.text, LinesFrom(c.text, 0));
    StreamExact(mode, c.text, LinesFrom(c.text, 0));
    assert (k, id) in stream;
    var i :| 0 <= i < |stream| && stream[i] == (k, id);
    DictionaryExact(stream, k);
  }

  /** The builder's output passes the checks on index construction. */
  lemma {:induction false} BuiltIsWellFormed(c: Container, mode: BuildKeys, x: Index)
    requires Built(c, mode, x) && |x.encoded| == |x.terms| && c.Valid()
    ensures WellFormed(x)
  {
    hide LinesFrom, Stream, Dictionary, PostingsOf, LineKeys, Sorted, Built, Tiles, Increasing;
    BuiltOpen(c, mode, x);
    var ls := LinesFrom(c.text, 0);
    DictionaryExact(Stream(mode, c.text, ls), []);
    forall i | 0 <= i < |x.postings| ensures Increasing(x.postings[i]) && IdsBelow(x.postings[i], |x.granules|) {
      BuiltPosting(c, mode, x, i, 0);
      forall j | 0 <= j < |x.postings[i]| ensures x.postings[i][j] < |x.granules| {
        BuiltPosting(c, mode, x, i, x.postings[i][j]);
        assert x.postings[i][j] in x.postings[i];
      }
      IncreasingShort(x.postings[i], |x.granules|);
    }
  }

  lemma {:induction false} IncreasingShort(values: seq<U64>, n: nat)
    requires Increasing(values) && forall i :: 0 <= i < |values| ==> values[i] < n
    ensures |values| <= n
    decreases |values|
  {
    if values != [] {
      var last := values[|values| - 1];
      IncreasingShort(values[..|values| - 1], last);
    }
  }

  lemma {:induction false} InPlan(x: Index, order: PlanOrder, ixs: seq<nat>, id: U64)
    requires Bounded(ixs, |x.postings|)
    ensures InAll(ListsOf(x, PlanOf(x, order, ixs)), id) <==> forall i :: 0 <= i < |ixs| ==> id in x.postings[ixs[i]]
  {
    hide PlanOf;
    var plan := PlanOf(x, order, ixs);
    var lists := ListsOf(x, plan);
    if InAll(lists, id) {
      forall i | 0 <= i < |ixs| ensures id in x.postings[ixs[i]] {
        assert ixs[i] in multiset(plan);
        var j :| 0 <= j < |plan| && plan[j] == ixs[i];
        assert id in lists[j];
      }
    }
    if forall i :: 0 <= i < |ixs| ==> id in x.postings[ixs[i]] {
      forall j | 0 <= j < |lists| ensures id in lists[j] {
        assert plan[j] in multiset(ixs);
        var i :| 0 <= i < |ixs| && ixs[i] == plan[j];
      }
    }
  }

  /** The candidates are exactly the lines that have every key. */
  lemma {:induction false} CandidatesExact(c: Container, mode: BuildKeys, x: Index, order: PlanOrder, keys: seq<Key>, id: U64)
    requires Built(c, mode, x) && WellFormed(x) && keys != [] && forall k :: k in keys ==> k in x.terms
    ensures SpansIn(c.text, LinesFrom(c.text, 0))
    ensures id in Candidates(x, order, keys) <==> (id < |LinesFrom(c.text, 0)| && HasAllKeys(c, mode, keys, id))
  {
    hide Intersection, PlanOf, LinesFrom, LineKeys, Positions, Built, Sorted;
    BuiltOpen(c, mode, x);
    var ixs := Positions(x.terms, keys);
    var plan := PlanOf(x, order, ixs);
    var lists := ListsOf(x, plan);
    assert |multiset(plan)| == |multiset(ixs)|;
    assert AllIncreasing(lists);
    IntersectionExact(lists);
    InPlan(x, order, ixs, id);
    forall i | 0 <= i < |keys|
      ensures id in x.postings[ixs[i]] <==> (id < |LinesFrom(c.text, 0)| && keys[i] in LineKeys(mode, LineBytes(c.text, LinesFrom(c.text, 0)[id])))
    {
      BuiltPosting(c, mode, x, ixs[i], id);
    }
    assert keys[0] in keys;
    if id < |LinesFrom(c.text, 0)| {
      assert HasAllKeys(c, mode, keys, id) <==> forall i :: 0 <= i < |keys| ==> keys[i] in LineKeys(mode, LineBytes(c.text, LinesFrom(c.text, 0)[id]));
    }
  }

  lemma {:induction false} LineGranuleOk(c: Container, g: SearchGranule, l: Span, id: nat)
    requires c.Valid() && IsLineGranule(c, g, l, id) && l.1 <= |c.text|
    ensures GranuleOk(c, g) && g.logicalOffset == l.0 && g.End() == l.1
  {
  }

  /** The candidate granules are lines, ascending, and pass validation. */
  lemma {:induction false} CandidateGranules(c: Container, mode: BuildKeys, x: Index, candidates: seq<U64>)
    requires c.Valid() && Built(c, mode, x) && Increasing(candidates)
    requires forall i :: 0 <= i < |candidates| ==> candidates[i] < |x.granules|
    ensures |x.granules| == |LinesFrom(c.text, 0)|
    ensures var gs := Selected(x.granules, candidates);
            && AllOk(c, gs)
            && (forall i :: 0 <= i < |gs| ==> GranuleIsLine(c, gs[i]) && (gs[i].logicalOffset, gs[i].End()) == LinesFrom(c.text, 0)[candidates[i]])
            && (forall i, j :: 0 <= i < j < |gs| ==> gs[i].End() <= gs[j].logicalOffset)
  {
    hide LinesFrom, Tiles, IsLine, GranuleOk, IsLineGranule;
    BuiltOpen(c, mode, x);
    var ls := LinesFrom(c.text, 0);
    LinesTile(c.text, 0) by { ZeroStarts(c.text); }
    var gs := Selected(x.granules, candidates);
    forall i | 0 <= i < |gs|
      ensures GranuleOk(c, gs[i]) && (gs[i].logicalOffset, gs[i].End()) == ls[candidates[i]] && GranuleIsLine(c, gs[i])
    {
      assert IsLineGranule(c, x.granules[candidates[i]], ls[candidates[i]], candidates[i]);
      LineGranuleOk(c, gs[i], ls[candidates[i]], candidates[i]);
    }
    forall i, j | 0 <= i < j < |gs| ensures gs[i].End() <= gs[j].logicalOffset {
      LinesAscend(c.text, ls, candidates[i], candidates[j]);
    }
  }

  ghost predicate GranuleIsLine(c: Container, g: SearchGranule) { IsLine(c.text, (g.logicalOffset, g.End())) }

  lemma {:induction false} LinesAscend(t: seq<Byte>, ls: seq<Span>, i: nat, j: nat)
    requires i < j < |ls| && (forall k :: 0 <= k < |ls| ==> IsLine(t, ls[k])) && (forall k :: 0 <= k < |ls| - 1 ==> ls[k].1 == ls[k + 1].0)
    ensures ls[i].1 <= ls[j].0
    decreases j - i
  {
    if i + 1 < j {
      LinesAscend(t, ls, i, j - 1);
      assert IsLine(t, ls[j - 1]) && ls[j - 1].1 == ls[j - 1 + 1].0;
    } else {
      assert ls[i].1 == ls[i + 1].0;
    }
  }

  /** Without a stop reason the hits are all hits of all candidates. */
  lemma {:induction false} UncappedHits(x: Index, c: Container, q: Query, keys: seq<Key>, order: PlanOrder, options: SearchOptions)
    requires c.Valid() && WellFormed(x) && SearchFor(x, c, q, keys, order, options).Ok? && keys != []
    requires SearchFor(x, c, q, keys, order, options).value.stop.None?
    ensures FirstMissing(x.terms, keys).Some? ==> SearchFor(x, c, q, keys, order, options).value.hits == []
    ensures FirstMissing(x.terms, keys).None? ==>
              && (forall i :: 0 <= i < |Candidates(x, order, keys)| ==> Candidates(x, order, keys)[i] < |x.granules|)
              && Increasing(Candidates(x, order, keys))
              && AllOk(c, Selected(x.granules, Candidates(x, order, keys)))
              && SearchFor(x, c, q, keys, order, options).value.hits == FullHits(c, q, Selected(x.granules, Candidates(x, order, keys)))
  {
    hide InBudget, VerifyAll, FullHits, Candidates, Within, Tiles;
    if FirstMissing(x.terms, keys).None? {
      CandidatesInRange(x, order, keys);
      var gs := Selected(x.granules, Candidates(x, order, keys));
      StartWithin(c, options.limits);
      CappedRunIsPrefix(c, q, gs, options.limits, START);
      assert START.hits + FullHits(c, q, gs) == FullHits(c, q, gs);
    }
  }

  /** Some hit covers exactly `[a, b)`. */
  ghost predicate HitAt(hits: seq<SearchHit>, a: nat, b: nat) {
    exists h :: h in hits && h.logicalOffset == a && h.logicalOffset + h.byteLength == b
  }

  lemma {:induction false} HitAtFrom(c: Container, q: Query, gs: seq<SearchGranule>, i: nat, m: Match)
    requires AllOk(c, gs) && i < |gs| && gs[i].End() <= |c.text| && m in GranuleMatches(c, q, gs[i])
    ensures HitAt(FullHits(c, q, gs), gs[i].logicalOffset + m.start, gs[i].logicalOffset + m.end)
  {
    hide GranuleMatches, FullHits;
    var ms := GranuleMatches(c, q, gs[i]);
    var j :| 0 <= j < |ms| && ms[j] == m;
    var h := GranuleHits(c, q, gs[i])[j];
    FullHitsHold(c, q, gs, i, h);
  }

  // ----- token search is the plain scan -----

  lemma {:induction false} QueryKeysFolded(query: seq<Byte>, options: SearchOptions)
    requires QueryKeys(query, options.maxQueryBytes, options.maxQueryTerms).Ok?
    ensures var keys := QueryKeys(query, options.maxQueryBytes, options.maxQueryTerms).value;
            FoldedDistinct(keys) && (forall k :: k in keys ==> Folded(k) == k) && Sorted(keys)
    ensures var keys := QueryKeys(query, options.maxQueryBytes, options.maxQueryTerms).value;
            forall k :: k in keys <==> HasToken(query, k)
  {
    hide Distinct, TokenKeys, Folded, HasToken, Less;
    var keys := QueryKeys(query, options.maxQueryBytes, options.maxQueryTerms).value;
    DistinctExact(TokenKeys(query, 0));
    forall k ensures k in keys <==> HasToken(query, k) { TokenKeysExact(query, k); }
    forall k | k in keys ensures Folded(k) == k {
      var a, b := SomeToken(query, k);
      FoldedTwice(query[a..b]);
    }
    forall i, j | 0 <= i < j < |keys| ensures Folded(keys[i]) != Folded(keys[j]) {
      assert keys[i] in keys && keys[j] in keys;
      if keys[i] == keys[j] { LessIrreflexive(keys[i]); }
    }
  }

  /** The line of a plain-scan hit has every query key among its index keys. */
  lemma {:induction false} HitLineHasKeys(c: Container, keys: seq<Key>, a: nat, b: nat, id: nat)
    requires TextHit(c.text, keys, a, b) && forall k :: k in keys ==> Folded(k) == k
    requires SpansIn(c.text, LinesFrom(c.text, 0)) && id < |LinesFrom(c.text, 0)|
    requires LinesFrom(c.text, 0)[id].0 <= a < LinesFrom(c.text, 0)[id].1
    ensures HasAllKeys(c, TokenMode, keys, id)
  {
    hide LinesFrom, TokenKeys, TextHit, IsRun, OneLine, IsLine, Folded;
    var l := LinesFrom(c.text, 0)[id];
    LinesTile(c.text, 0) by { ZeroStarts(c.text); }
    var line := LineBytes(c.text, l);
    forall k | k in keys ensures k in LineKeys(TokenMode, line) {
      var i :| 0 <= i < |keys| && keys[i] == k;
      var cc, d := HeldKey(c.text, keys, a, b, i);
      TokenInLine(c.text, l, a, cc, d);
      SliceOfRun(c.text, l.0, l.1, cc, d);
      SliceOfSlice(c.text, l.0, l.1, cc, d);
      HasTokenAt(line, cc - l.0, d - l.0);
      TokenKeysExact(line, k);
    }
  }

  /**
   * Token search refines the plain scan: on the built index an unstopped search reports exactly the
   * tokens spelled like a token of the query, up to the case of ASCII letters, on lines holding all
   * of the query's tokens. In particular a key absent from the dictionary means that there is no
   * such token.
   */
  lemma {:induction false} TokenSearchIsExact(x: Index, c: Container, query: seq<Byte>, options: SearchOptions, a: nat, b: nat)
    requires c.Valid() && Built(c, TokenMode, x) && WellFormed(x) && TokenSearchFor(x, c, query, options).Ok?
    requires TokenSearchFor(x, c, query, options).value.stop.None?
    ensures HitAt(TokenSearchFor(x, c, query, options).value.hits, a, b) <==> PlainHit(c.text, query, a, b)
  {
    hide *;
    TokenSearchIs(x, c, query, options);
    var keys := QueryKeys(query, options.maxQueryBytes, options.maxQueryTerms).value;
    var hits := TokenSearchFor(x, c, query, options).value.hits;
    if HitAt(hits, a, b) {
      var h := HitOf(hits, a, b);
      TokenHitsAreSound(x, c, query, options, h);
    }
    if PlainHit(c.text, query, a, b) {
      QueryKeysFolded(query, options);
      QueryKeysAsked(query, options);
      PlainHitIff(c.text, query, keys, a, b);
      SomeKey(c.text, keys, a, b);
      TokenSearchComplete(x, c, keys, options, a, b);
    }
  }

  lemma {:induction false} SomeKey(t: seq<Byte>, keys: seq<Key>, a: nat, b: nat)
    requires TextHit(t, keys, a, b)
    ensures keys != []
  {
  }

  lemma {:induction false} HitOf(hits: seq<SearchHit>, a: nat, b: nat) returns (h: SearchHit)
    requires HitAt(hits, a, b)
    ensures h in hits && h.logicalOffset == a && h.logicalOffset + h.byteLength == b
  {
    h :| h in hits && h.logicalOffset == a && h.logicalOffset + h.byteLength == b;
  }

  lemma {:induction false} HitInText(t: seq<Byte>, keys: seq<Key>, a: nat, b: nat)
    requires TextHit(t, keys, a, b)
    ensures a < b <= |t|
  {
  }

  lemma {:induction false} AllKeysPresent(c: Container, mode: BuildKeys, x: Index, keys: seq<Key>, id: U64)
    requires Built(c, mode, x) && SpansIn(c.text, LinesFrom(c.text, 0)) && id < |LinesFrom(c.text, 0)| && HasAllKeys(c, mode, keys, id)
    ensures forall k :: k in keys ==> k in x.terms
  {
    hide Built, LinesFrom, LineKeys;
    forall k | k in keys ensures k in x.terms { BuiltTerm(c, mode, x, id, k); }
  }

  lemma {:induction false} TokenSearchComplete(x: Index, c: Container, keys: seq<Key>, options: SearchOptions, a: nat, b: nat)
    requires c.Valid() && Built(c, TokenMode, x) && WellFormed(x) && keys != []
    requires FoldedDistinct(keys) && forall k :: k in keys ==> Folded(k) == k
    requires SearchFor(x, c, TokenQuery(keys), keys, ByLength, options).Ok?
    requires SearchFor(x, c, TokenQuery(keys), keys, ByLength, options).value.stop.None?
    requires TextHit(c.text, keys, a, b)
    ensures HitAt(SearchFor(x, c, TokenQuery(keys), keys, ByLength, options).value.hits, a, b)
  {
    hide *;
    var q := TokenQuery(keys);
    BuiltOpen(c, TokenMode, x);
    HitInText(c.text, keys, a, b);
    var id := LineOfPosition(c.text, 0, a);
    TextFits(c);
    FewLines(c.text, 0);
    HitLineHasKeys(c, keys, a, b, id);
    AllKeysPresent(c, TokenMode, x, keys, id);
    UncappedHits(x, c, q, keys, ByLength, options);
    CandidatesExact(c, TokenMode, x, ByLength, keys, id);
    var candidates := Candidates(x, ByLength, keys);
    var gs := Selected(x.granules, candidates);
    CandidateGranules(c, TokenMode, x, candidates);
    var i :| 0 <= i < |candidates| && candidates[i] == id;
    var m := LineHit(c, keys, gs[i], a, b);
    HitAtFrom(c, q, gs, i, m);
  }

  lemma {:induction false} LineHit(c: Container, keys: seq<Key>, g: SearchGranule, a: nat, b: nat) returns (m: Match)
    requires GranuleIsLine(c, g) && FoldedDistinct(keys) && TextHit(c.text, keys, a, b) && g.logicalOffset <= a < g.End()
    ensures g.End() <= |c.text| && m in GranuleMatches(c, TokenQuery(keys), g)
    ensures g.logicalOffset + m.start == a && g.logicalOffset + m.end == b
  {
    var q := TokenQuery(keys);
    assert 0 < g.byteLength && g.End() <= |c.text|;
    hide *;
    GranuleFlags(c, q, g);
    TokenMatchesOf(c, keys, g);
    GranuleLineIs(c, g);
    m := LineGranuleComplete(c.text, (g.logicalOffset, g.End()), keys, LeftContinues(c, q, g), RightContinues(c, q, g), a, b);
  }

  lemma {:induction false} GranuleLineIs(c: Container, g: SearchGranule)
    requires GranuleIsLine(c, g)
    ensures IsLine(c.text, (g.logicalOffset, g.End()))
  {
  }

  // ----- n-gram search is the plain scan -----

  /** The query bytes occur at `a` inside a single line. */
  ghost predicate OccursInLine(t: seq<Byte>, query: seq<Byte>, a: nat) {
    exists i :: 0 <= i < |LinesFrom(t, 0)| && Inside(LinesFrom(t, 0)[i], a, a + |query|) && Occurs(t, query, a)
  }

  predicate Inside(l: Span, a: nat, b: nat) { l.0 <= a && b <= l.1 }

  lemma {:induction false} OccurrenceLine(t: seq<Byte>, query: seq<Byte>, a: nat) returns (i: nat)
    requires OccursInLine(t, query, a)
    ensures i < |LinesFrom(t, 0)| && LinesFrom(t, 0)[i].0 <= a && a + |query| <= LinesFrom(t, 0)[i].1 && Occurs(t, query, a)
  {
    hide LinesFrom, Occurs;
    i :| 0 <= i < |LinesFrom(t, 0)| && Inside(LinesFrom(t, 0)[i], a, a + |query|) && Occurs(t, query, a);
  }

  lemma {:induction false} NgramSearchIs(x: Index, c: Container, query: seq<Byte>, n: nat, high: nat, options: SearchOptions)
    requires c.Valid() && WellFormed(x) && Utf8.Valid(query) && NgramSearchFor(x, c, query, n, high, options).Ok?
    ensures NgramQueryKeys(query, n, options.maxQueryBytes, options.maxQueryTerms).Ok? && n > 0
    ensures var keys := NgramQueryKeys(query, n, options.maxQueryBytes, options.maxQueryTerms).value;
            && NgramSearchFor(x, c, query, n, high, options) == SearchFor(x, c, SubstringQuery(query), keys, ByFrequency(high), options)
            && forall k :: k in keys <==> k in NgramKeys(query, n)
  {
    hide SearchFor, Tiles, WellFormed, NgramKeys, Distinct;
    DistinctExact(NgramKeys(query, n));
  }

  /** The line of an occurrence has every n-gram of the query. */
  lemma {:induction false} OccurrenceLineHasKeys(c: Container, query: seq<Byte>, n: nat, keys: seq<Key>, a: nat, id: nat)
    requires Utf8.Valid(c.text) && Utf8.Valid(query) && n > 0 && query != [] && forall k :: k in keys <==> k in NgramKeys(query, n)
    requires SpansIn(c.text, LinesFrom(c.text, 0)) && id < |LinesFrom(c.text, 0)|
    requires LinesFrom(c.text, 0)[id].0 <= a && a + |query| <= LinesFrom(c.text, 0)[id].1 && Occurs(c.text, query, a)
    ensures HasAllKeys(c, NgramMode(n), keys, id)
  {
    hide LinesFrom, NgramKeys, Occurs, Utf8.ValidFrom;
    var l := LinesFrom(c.text, 0)[id];
    LinesTile(c.text, 0) by { ZeroStarts(c.text); }
    assert IsLine(c.text, l);
    LineValid(c.text, l.0, l.1);
    var line := LineBytes(c.text, l);
    OccursInSlice(c.text, l.0, l.1, query, a - l.0);
    forall k | k in keys ensures k in LineKeys(NgramMode(n), line) { OccurrenceHasKeys(line, query, a - l.0, n, k); }
  }

  lemma {:induction false} NgramMatchesOf(c: Container, query: seq<Byte>, g: SearchGranule, a: nat)
    requires query != [] && 0 < g.byteLength && g.End() <= |c.text| && g.logicalOffset <= a
    ensures Match(0, a - g.logicalOffset, a - g.logicalOffset + |query|) in GranuleMatches(c, SubstringQuery(query), g)
            <==> a + |query| <= g.End() && Occurs(c.text, query, a)
  {
    hide Occurrences, Occurs;
    var bytes := c.text[g.logicalOffset..g.End()];
    OccurrencesExact(bytes, query, 0);
    OccursInSlice(c.text, g.logicalOffset, g.End(), query, a - g.logicalOffset);
  }

  /**
   * N-gram search refines the plain scan: on the built index an unstopped search for a query
   * of at least `n` scalars reports exactly the occurrences of the query inside a line,
   * overlapping ones included.
   */
  lemma {:induction false} NgramSearchIsExact(x: Index, c: Container, query: seq<Byte>, n: nat, high: nat, options: SearchOptions, a: nat)
    requires c.Valid() && Utf8.Valid(c.text) && Built(c, NgramMode(n), x) && WellFormed(x) && Utf8.Valid(query)
    requires NgramSearchFor(x, c, query, n, high, options).Ok? && NgramSearchFor(x, c, query, n, high, options).value.stop.None?
    requires NgramQueryKeys(query, n, options.maxQueryBytes, options.maxQueryTerms).value != []
    ensures HitAt(NgramSearchFor(x, c, query, n, high, options).value.hits, a, a + |query|) <==> OccursInLine(c.text, query, a)
  {
    hide *;
    NgramSearchIs(x, c, query, n, high, options);
    var keys := NgramQueryKeys(query, n, options.maxQueryBytes, options.maxQueryTerms).value;
    var hits := NgramSearchFor(x, c, query, n, high, options).value.hits;
    KeysNeedBytes(query, n, keys);
    if HitAt(hits, a, a + |query|) { NgramHitInLine(x, c, query, n, high, keys, options, a); }
    if OccursInLine(c.text, query, a) { NgramSearchComplete(x, c, query, n, high, keys, options, a); }
  }

  lemma {:induction false} KeysNeedBytes(query: seq<Byte>, n: nat, keys: seq<Key>)
    requires Utf8.Valid(query) && n > 0 && keys != [] && forall k :: k in keys <==> k in NgramKeys(query, n)
    ensures query != []
  {
    assert keys[0] in NgramKeys(query, n);
  }

  lemma {:induction false} NgramHitInLine(x: Index, c: Container, query: seq<Byte>, n: nat, high: nat, keys: seq<Key>, options: SearchOptions, a: nat)
    requires c.Valid() && Built(c, NgramMode(n), x) && WellFormed(x) && keys != [] && query != []
    requires SearchFor(x, c, SubstringQuery(query), keys, ByFrequency(high), options).Ok?
    requires SearchFor(x, c, SubstringQuery(query), keys, ByFrequency(high), options).value.stop.None?
    requires HitAt(SearchFor(x, c, SubstringQuery(query), keys, ByFrequency(high), options).value.hits, a, a + |query|)
    ensures OccursInLine(c.text, query, a)
  {
    hide *;
    BuiltOpen(c, NgramMode(n), x);
    var q := SubstringQuery(query);
    UncappedHits(x, c, q, keys, ByFrequency(high), options);
    var h := HitOf(SearchFor(x, c, q, keys, ByFrequency(high), options).value.hits, a, a + |query|);
    var candidates := Candidates(x, ByFrequency(high), keys);
    var gs := Selected(x.granules, candidates);
    CandidateGranules(c, NgramMode(n), x, candidates);
    var i, m := FullHitFrom(c, q, gs, h);
    OkFits(c, gs[i]) by { AllOkAt(c, gs, i); }
    SubstringMatch(c, query, gs[i], m);
    NgramMatchesOf(c, query, gs[i], a);
    OccursInLineAt(c.text, query, a, candidates[i]);
  }

  lemma {:induction false} AllOkAt(c: Container, gs: seq<SearchGranule>, i: nat)
    requires AllOk(c, gs) && i < |gs|
    ensures GranuleOk(c, gs[i])
  {
  }

  lemma {:induction false} SubstringMatch(c: Container, query: seq<Byte>, g: SearchGranule, m: Match)
    requires query != [] && g.End() <= |c.text| && m in GranuleMatches(c, SubstringQuery(query), g)
    ensures m.key == 0 && m.end == m.start + |query|
  {
    hide Occurrences;
    OccurrencesExact(c.text[g.logicalOffset..g.End()], query, 0);
  }

  lemma {:induction false} OccursInLineAt(t: seq<Byte>, query: seq<Byte>, a: nat, i: nat)
    requires i < |LinesFrom(t, 0)| && LinesFrom(t, 0)[i].0 <= a && a + |query| <= LinesFrom(t, 0)[i].1 && Occurs(t, query, a)
    ensures OccursInLine(t, query, a)
  {
    hide LinesFrom, Occurs;
    assert Inside(LinesFrom(t, 0)[i], a, a + |query|);
  }

  lemma {:induction false} NgramSearchComplete(x: Index, c: Container, query: seq<Byte>, n: nat, high: nat, keys: seq<Key>, options: SearchOptions, a: nat)
    requires c.Valid() && Utf8.Valid(c.text) && Built(c, NgramMode(n), x) && WellFormed(x) && Utf8.Valid(query)
    requires keys != [] && n > 0 && query != [] && forall k :: k in keys <==> k in NgramKeys(query, n)
    requires SearchFor(x, c, SubstringQuery(query), keys, ByFrequency(high), options).Ok?
    requires SearchFor(x, c, SubstringQuery(query), keys, ByFrequency(high), options).value.stop.None?
    requires OccursInLine(c.text, query, a)
    ensures HitAt(SearchFor(x, c, SubstringQuery(query), keys, ByFrequency(high), options).value.hits, a, a + |query|)
  {
    hide *;
    var q := SubstringQuery(query);
    BuiltOpen(c, NgramMode(n), x);
    var id := OccurrenceLine(c.text, query, a);
    TextFits(c);
    FewLines(c.text, 0);
    OccurrenceLineHasKeys(c, query, n, keys, a, id);
    AllKeysPresent(c, NgramMode(n), x, keys, id);
    UncappedHits(x, c, q, keys, ByFrequency(high), options);
    CandidatesExact(c, NgramMode(n), x, ByFrequency(high), keys, id);
    var candidates := Candidates(x, ByFrequency(high), keys);
    var gs := Selected(x.granules, candidates);
    CandidateGranules(c, NgramMode(n), x, candidates);
    var i :| 0 <= i < |candidates| && candidates[i] == id;
    OkFits(c, gs[i]) by { AllOkAt(c, gs, i); }
    NgramMatchesOf(c, query, gs[i], a);
    HitAtFrom(c, q, gs, i, Match(0, a - gs[i].logicalOffset, a - gs[i].logicalOffset + |query|));
  }

  // ----- order -----

  /** Hits start inside `[lo, hi)` at strictly increasing offsets. */
  predicate Ascend(hits: seq<SearchHit>, lo: nat, hi: nat) {
    && (forall i :: 0 <= i < |hits| ==> lo <= hits[i].logicalOffset < hi)
    && (forall i, j :: 0 <= i < j < |hits| ==> hits[i].logicalOffset < hits[j].logicalOffset)
  }

  lemma {:induction false} AscendConcat(a: seq<SearchHit>, b: seq<SearchHit>, lo: nat, mid: nat, hi: nat)
    requires lo <= mid <= hi && Ascend(a, lo, mid) && Ascend(b, mid, hi)
    ensures Ascend(a + b, lo, hi)
  {
  }

  lemma {:induction false} GranuleHitsAscend(c: Container, q: Query, g: SearchGranule)
    requires GranuleIsLine(c, g) && g.End() <= |c.text|
    ensures Ascend(GranuleHits(c, q, g), g.logicalOffset, g.End())
  {
    hide GranuleSpans, Occurrences, IsLine, LeftContinues, RightContinues;
    var ms := GranuleMatches(c, q, g);
    var bytes := c.text[g.logicalOffset..g.End()];
    match q {
      case TokenQuery(keys) =>
        GranuleLineIs(c, g);
        LineGranuleOrdered(c.text, (g.logicalOffset, g.End()), keys, LeftContinues(c, q, g), RightContinues(c, q, g));
        forall i | 0 <= i < |ms| ensures ms[i].start < ms[i].end <= |bytes| { SpansFit(q, bytes, LeftContinues(c, q, g), RightContinues(c, q, g), ms[i]); }
      case SubstringQuery(query) =>
        if query == [] { NoQueryNoSpans(bytes); } else { OccurrencesExact(bytes, query, 0); }
        assert forall i :: 0 <= i < |ms| ==> ms[i] in ms;
    }
  }

  lemma {:induction false} FullHitsAscend(c: Container, q: Query, gs: seq<SearchGranule>, lo: nat)
    requires AllOk(c, gs) && lo <= |c.text|
    requires forall i :: 0 <= i < |gs| ==> GranuleIsLine(c, gs[i]) && lo <= gs[i].logicalOffset
    requires forall i, j :: 0 <= i < j < |gs| ==> gs[i].End() <= gs[j].logicalOffset
    ensures Ascend(FullHits(c, q, gs), lo, |c.text|)
    decreases |gs|
  {
    hide GranuleHits, GranuleIsLine, GranuleOk;
    if gs != [] {
      var g := gs[0];
      OkFits(c, g) by { AllOkAt(c, gs, 0); }
      GranuleHitsAscend(c, q, g);
      FullHitsAscend(c, q, gs[1..], g.End());
      AscendWider(GranuleHits(c, q, g), lo, g.logicalOffset, g.End());
      AscendConcat(GranuleHits(c, q, g), FullHits(c, q, gs[1..]), lo, g.End(), |c.text|);
    }
  }

  lemma {:induction false} AscendWider(hits: seq<SearchHit>, lo: nat, mid: nat, hi: nat)
    requires lo <= mid && Ascend(hits, mid, hi)
    ensures Ascend(hits, lo, hi)
  {
  }

  /** On the built index hits come in text order, stopped or not. */
  lemma {:induction false} HitsInTextOrder(x: Index, c: Container, mode: BuildKeys, q: Query, keys: seq<Key>, order: PlanOrder, options: SearchOptions)
    requires c.Valid() && Built(c, mode, x) && WellFormed(x) && SearchFor(x, c, q, keys, order, options).Ok?
    ensures Ascend(SearchFor(x, c, q, keys, order, options).value.hits, 0, |c.text|)
  {
    hide Ascend, InBudget, VerifyAll, FullHits, Candidates, Within, Tiles, Built, GranuleIsLine, LinesFrom;
    NoHitsAscend(|c.text|);
    if keys != [] && FirstMissing(x.terms, keys).None? && InBudget(x, order, keys, options) {
      CandidatesInRange(x, order, keys);
      var candidates := Candidates(x, order, keys);
      var gs := Selected(x.granules, candidates);
      CandidateGranules(c, mode, x, candidates);
      FullHitsAscend(c, q, gs, 0);
      if |gs| <= options.maxCandidates && options.limits.maxResults > 0 {
        StartWithin(c, options.limits);
        CappedRunIsPrefix(c, q, gs, options.limits, START);
        assert START.hits + FullHits(c, q, gs) == FullHits(c, q, gs);
        AscendPrefix(VerifyAll(c, q, gs, options.limits, START).value.hits, FullHits(c, q, gs), 0, |c.text|);
      }
    }
  }

  lemma {:induction false} NoHitsAscend(hi: nat)
    ensures Ascend([], 0, hi)
  {
  }

  lemma {:induction false} AscendPrefix(a: seq<SearchHit>, b: seq<SearchHit>, lo: nat, hi: nat)
    requires a <= b && Ascend(b, lo, hi)
    ensures Ascend(a, lo, hi)
  {
  }

  // ----- limits -----

  /** No search exceeds its decoded-byte, physical-byte, chunk or result limit. */
  lemma {:induction false} SearchStaysWithinLimits(x: Index, c: Container, q: Query, keys: seq<Key>, order: PlanOrder, options: SearchOptions)
    requires c.Valid() && WellFormed(x) && SearchFor(x, c, q, keys, order, options).Ok?
    ensures var report, lim := SearchFor(x, c, q, keys, order, options).value, options.limits;
            && report.decoded <= lim.maxDecoded && report.bytes <= lim.maxBytes && report.chunks <= lim.maxChunks
            && |report.hits| <= lim.maxResults
  {
    hide InBudget, VerifyAll, FullHits, Candidates, Tiles;
    if keys != [] && FirstMissing(x.terms, keys).None? {
      CandidatesInRange(x, order, keys);
      var gs := Selected(x.granules, Candidates(x, order, keys));
      if AllOk(c, gs) && options.limits.maxResults > 0 && VerifyAll(c, q, gs, options.limits, START).Ok? {
        StartWithin(c, options.limits);
        CappedRunIsPrefix(c, q, gs, options.limits, START);
      }
    }
  }

  /**
   * Lower verification limits give a prefix of the hits, for the same index and query; a search
   * that succeeds with higher limits does not fail with lower ones; and without a stop reason
   * raising the limits changes nothing.
   */
  lemma {:induction false} LowerLimitsGivePrefix(x: Index, c: Container, q: Query, keys: seq<Key>, order: PlanOrder, options: SearchOptions, lower: Limits)
    requires c.Valid() && WellFormed(x) && NoLarger(lower, options.limits) && SearchFor(x, c, q, keys, order, options).Ok?
    ensures SearchFor(x, c, q, keys, order, options.(limits := lower)).Ok?
    ensures SearchFor(x, c, q, keys, order, options.(limits := lower)).value.hits <= SearchFor(x, c, q, keys, order, options).value.hits
    ensures SearchFor(x, c, q, keys, order, options.(limits := lower)).value.stop.None? ==>
              SearchFor(x, c, q, keys, order, options) == SearchFor(x, c, q, keys, order, options.(limits := lower))
  {
    hide VerifyAll, FullHits, Candidates, Tiles, Covered, PostingBytes, PostingIds, IntersectionWork, PlanOf, Positions, FirstMissing;
    if keys != [] && FirstMissing(x.terms, keys).None? {
      CandidatesInRange(x, order, keys);
      var gs := Selected(x.granules, Candidates(x, order, keys));
      if |gs| <= options.maxCandidates && lower.maxResults > 0 {
        StartWithin(c, lower);
        RaisingLimitsKeepsHits(c, q, gs, lower, options.limits, START);
      }
    }
  }

  /**
   * The smallest sufficient limits: given a search that was not stopped, another with lower limits
   * is not stopped exactly when the first one's counters fit them with room for one more hit.
   */
  lemma {:induction false} UnstoppedExactly(x: Index, c: Container, q: Query, keys: seq<Key>, order: PlanOrder, options: SearchOptions, lower: Limits)
    requires c.Valid() && WellFormed(x) && keys != [] && FirstMissing(x.terms, keys).None? && NoLarger(lower, options.limits)
    requires SearchFor(x, c, q, keys, order, options).Ok? && SearchFor(x, c, q, keys, order, options).value.stop.None?
    ensures SearchFor(x, c, q, keys, order, options.(limits := lower)).Ok?
    ensures var full, less := SearchFor(x, c, q, keys, order, options).value, SearchFor(x, c, q, keys, order, options.(limits := lower)).value;
            less.stop.None? <==>
              (&& full.decoded <= lower.maxDecoded && full.bytes <= lower.maxBytes && full.chunks <= lower.maxChunks
               && |full.hits| < lower.maxResults)
  {
    hide VerifyAll, FullHits, Candidates, Tiles, Covered, PostingBytes, PostingIds, IntersectionWork, PlanOf, Positions;
    CandidatesInRange(x, order, keys);
    var gs := Selected(x.granules, Candidates(x, order, keys));
    if lower.maxResults > 0 { UnstoppedIffSuffices(c, q, gs, lower, options.limits); }
  }

  /** The uncapped search exists: with room for its candidates and hits, a search on the built index ends without a stop. */
  lemma {:induction false} RoomySearchIsUncapped(x: Index, c: Container, mode: BuildKeys, q: Query, keys: seq<Key>, order: PlanOrder, options: SearchOptions)
    requires c.Valid() && Built(c, mode, x) && WellFormed(x) && keys != [] && FirstMissing(x.terms, keys).None?
    requires InBudget(x, order, keys, options) && |Candidates(x, order, keys)| <= options.maxCandidates
    requires Roomy(c, options.limits, START, 2 * |Candidates(x, order, keys)|)
    requires |c.text| < options.limits.maxResults
    ensures SearchFor(x, c, q, keys, order, options).Ok? && SearchFor(x, c, q, keys, order, options).value.stop.None?
  {
    hide VerifyAll, FullHits, Candidates, Tiles, Covered, InBudget, Roomy, Built, LinesFrom;
    CandidatesInRange(x, order, keys);
    var gs := Selected(x.granules, Candidates(x, order, keys));
    CandidateGranules(c, mode, x, Candidates(x, order, keys));
    FullHitsAscend(c, q, gs, 0);
    AscendShort(FullHits(c, q, gs), 0, |c.text|);
    RoomyRunIsUncapped(c, q, gs, options.limits, START);
  }

  lemma {:induction false} AscendShort(hits: seq<SearchHit>, lo: nat, hi: nat)
    requires lo <= hi && Ascend(hits, lo, hi)
    ensures |hits| <= hi - lo
    decreases |hits|
  {
    if hits != [] {
      var last := hits[|hits| - 1].logicalOffset;
      AscendShort(hits[..|hits| - 1], lo, last);
    }
  }

  // ----- the builder's index does not depend on the chunking -----

  /** Two chunk tables of one text give the same line ranges, dictionary and posting lists. */
  lemma {:induction false} IndexIndependentOfChunks(a: Container, b: Container, mode: BuildKeys, p: LineIndexParts, q: LineIndexParts)
    requires a.text == b.text && IsIndexOf(a, mode, p) && IsIndexOf(b, mode, q)
    ensures p.terms == q.terms && p.postings == q.postings && |p.granules| == |q.granules|
    ensures forall i :: 0 <= i < |p.granules| ==>
              p.granules[i].logicalOffset == q.granules[i].logicalOffset && p.granules[i].byteLength == q.granules[i].byteLength
  {
    hide LinesFrom, Stream, Dictionary, PostingsOf;
    assert forall i :: 0 <= i < |p.terms| ==> p.postings[i] == q.postings[i];
    forall i | 0 <= i < |p.granules|
      ensures p.granules[i].logicalOffset == q.granules[i].logicalOffset && p.granules[i].byteLength == q.granules[i].byteLength
    {
      assert IsLineGranule(a, p.granules[i], LinesFrom(a.text, 0)[i], i);
      assert IsLineGranule(b, q.granules[i], LinesFrom(b.text, 0)[i], i);
    }
  }
}
