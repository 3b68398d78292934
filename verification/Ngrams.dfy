/** N-grams of Unicode scalars, and substring verification. */
module Ngrams {
  import opened Bytes
  import opened Utf8
  import opened KeySets
  import opened TokenMatch

  predicate Rising(cs: seq<nat>, lo: nat, hi: nat) {
    && (forall i :: 0 <= i < |cs| ==> lo <= cs[i] <= hi)
    && (forall i, j :: 0 <= i < j < |cs| ==> cs[i] < cs[j])
  }

  /** Scalar boundaries from `p` on, the end included. */
  function CharStarts(t: seq<Byte>, p: nat): (cs: seq<nat>)
    requires ValidFrom(t, p)
    ensures |cs| > 0 && Rising(cs, p, |t|)
    decreases |t| - p
  {
    if p == |t| then [p] else [p] + CharStarts(t, p + ScalarLen(t, p))
  }

  /** Every stretch of `n` consecutive scalars, in order. */
  function NgramKeys(t: seq<Byte>, n: nat): (ks: seq<Key>)
    requires Utf8.Valid(t) && n > 0
  {
    var cs := CharStarts(t, 0);
    if |cs| <= n then [] else seq(|cs| - n, w requires 0 <= w < |cs| - n => t[cs[w]..cs[w + n]])
  }

  // ----- an occurrence of valid text starts and ends at scalar boundaries -----

  predicate Occurs(t: seq<Byte>, q: seq<Byte>, p: nat) {
    p + |q| <= |t| && t[p..p + |q|] == q
  }

  /** UTF-8 synchronises itself: valid text can only occur at a scalar boundary. */
  lemma {:induction false} OccursAtBoundary(t: seq<Byte>, q: seq<Byte>, p: nat)
    requires Utf8.Valid(t) && Utf8.Valid(q) && q != [] && Occurs(t, q, p)
    ensures ValidFrom(t, p)
  {
    assert t[p] == t[p..p + |q|][0] == q[0];
    assert ScalarLen(q, 0) > 0;
    BoundaryIsValid(t, 0, p);
  }

  lemma {:induction false} CharStartsStep(t: seq<Byte>, p: nat)
    requires ValidFrom(t, p)
    ensures p <= |t|
    ensures p == |t| ==> CharStarts(t, p) == [p]
    ensures p < |t| ==> ScalarLen(t, p) > 0 && p + ScalarLen(t, p) <= |t| && ValidFrom(t, p + ScalarLen(t, p))
    ensures p < |t| ==> CharStarts(t, p) == [p] + CharStarts(t, p + ScalarLen(t, p))
  {
  }

  /** `ct` begins with `cq` shifted by `p`. */
  predicate Aligned(cq: seq<nat>, ct: seq<nat>, p: nat) {
    |cq| <= |ct| && forall i :: 0 <= i < |cq| ==> ct[i] == p + cq[i]
  }

  lemma {:induction false} AlignedOne(x: nat, ct: seq<nat>, p: nat)
    requires ct != [] && ct[0] == p + x
    ensures Aligned([x], ct, p)
  {
  }

  lemma {:induction false} AlignedCons(x: nat, cq: seq<nat>, ct: seq<nat>, p: nat)
    requires Aligned(cq, ct, p)
    ensures Aligned([x] + cq, [p + x] + ct, p)
  {
  }

  /** The scalar at `at` in the query is the scalar at `p + at` in the text. */
  lemma {:induction false} SharedScalar(t: seq<Byte>, q: seq<Byte>, p: nat, at: nat)
    requires ValidFrom(q, at) && at < |q| && Occurs(t, q, p)
    ensures ScalarLen(t, p + at) == ScalarLen(q, at)
  {
    var n := ScalarLen(q, at);
    SameSlice(t, q, p, at, at + n);
    ScalarLenLocal(q, t, at, p + at);
  }

  /** Boundaries of the occurrence are the query's boundaries, shifted. */
  lemma {:induction false} SharedBoundaries(t: seq<Byte>, q: seq<Byte>, p: nat, at: nat)
    requires ValidFrom(q, at) && Occurs(t, q, p) && ValidFrom(t, p + at)
    ensures Aligned(CharStarts(q, at), CharStarts(t, p + at), p)
    decreases |q| - at
  {
    hide *;
    CharStartsStep(q, at);
    CharStartsStep(t, p + at);
    OccursFits(t, q, p);
    if at < |q| {
      SharedScalar(t, q, p, at);
      SharedBoundaries(t, q, p, at + ScalarLen(q, at));
      AlignedCons(at, CharStarts(q, at + ScalarLen(q, at)), CharStarts(t, p + at + ScalarLen(q, at)), p);
    } else {
      AlignedOne(at, CharStarts(t, p + at), p);
    }
  }

  lemma {:induction false} OccursFits(t: seq<Byte>, q: seq<Byte>, p: nat)
    requires Occurs(t, q, p)
    ensures p + |q| <= |t|
  {
  }

  lemma {:induction false} NotInsideScalar(t: seq<Byte>, from: nat, p: nat)
    requires ValidFrom(t, from) && from < p && ValidFrom(t, p)
    ensures from < |t| && from + ScalarLen(t, from) <= p
  {
    assert p <= |t| && (p < |t| ==> ScalarLen(t, p) > 0);
    assert p < |t| ==> !IsContinuation(t[p]);
  }

  /** The boundaries from a later boundary on are a tail of all boundaries. */
  lemma {:induction false} BoundariesTail(t: seq<Byte>, from: nat, p: nat) returns (j: nat)
    requires ValidFrom(t, from) && from <= p && ValidFrom(t, p)
    ensures j < |CharStarts(t, from)| && CharStarts(t, from)[j..] == CharStarts(t, p)
    decreases p - from
  {
    hide *;
    if from == p {
      j := 0;
      assert CharStarts(t, from)[0..] == CharStarts(t, from);
    } else {
      NotInsideScalar(t, from, p);
      CharStartsStep(t, from);
      var next := from + ScalarLen(t, from);
      var i := BoundariesTail(t, next, p);
      j := i + 1;
      assert CharStarts(t, from)[i + 1..] == CharStarts(t, next)[i..];
    }
  }

  lemma {:induction false} RisingPair(cs: seq<nat>, lo: nat, hi: nat, i: nat, j: nat)
    requires Rising(cs, lo, hi) && i <= j < |cs|
    ensures lo <= cs[i] <= cs[j] <= hi
  {
  }

  lemma {:induction false} NgramKeyAt(t: seq<Byte>, n: nat, w: nat)
    requires Utf8.Valid(t) && n > 0 && w + n < |CharStarts(t, 0)|
    ensures CharStarts(t, 0)[w] <= CharStarts(t, 0)[w + n] <= |t|
    ensures |NgramKeys(t, n)| == |CharStarts(t, 0)| - n
    ensures NgramKeys(t, n)[w] == t[CharStarts(t, 0)[w]..CharStarts(t, 0)[w + n]]
  {
    hide CharStarts, Rising;
    RisingPair(CharStarts(t, 0), 0, |t|, w, w + n);
  }

  lemma {:induction false} NgramKeyOf(t: seq<Byte>, n: nat, k: Key) returns (w: nat)
    requires Utf8.Valid(t) && n > 0 && k in NgramKeys(t, n)
    ensures w + n < |CharStarts(t, 0)| && CharStarts(t, 0)[w] <= CharStarts(t, 0)[w + n] <= |t|
    ensures k == t[CharStarts(t, 0)[w]..CharStarts(t, 0)[w + n]]
  {
    hide CharStarts, Rising;
    w :| 0 <= w < |NgramKeys(t, n)| && NgramKeys(t, n)[w] == k;
    RisingPair(CharStarts(t, 0), 0, |t|, w, w + n);
  }

  lemma {:induction false} WindowNonempty(t: seq<Byte>, n: nat, w: nat)
    requires Utf8.Valid(t) && n > 0 && w + n < |CharStarts(t, 0)|
    ensures CharStarts(t, 0)[w] < CharStarts(t, 0)[w + n]
  {
    hide CharStarts;
  }

  lemma {:induction false} AlignedAt(cq: seq<nat>, ct: seq<nat>, p: nat, i: nat)
    requires Aligned(cq, ct, p) && i < |cq|
    ensures |cq| <= |ct| && ct[i] == p + cq[i]
  {
  }

  /** A line that contains the query holds all of the query's n-grams. */
  lemma {:induction false} OccurrenceHasKeys(t: seq<Byte>, q: seq<Byte>, p: nat, n: nat, k: Key)
    requires Utf8.Valid(t) && Utf8.Valid(q) && q != [] && Occurs(t, q, p) && n > 0
    requires k in NgramKeys(q, n)
    ensures k in NgramKeys(t, n)
  {
    hide *;
    WholeValid(t, q);
    OccursAtBoundary(t, q, p);
    var j := BoundariesTail(t, 0, p);
    SharedBoundaries(t, q, p, 0);
    var cq, ct, tail := CharStarts(q, 0), CharStarts(t, 0), CharStarts(t, p);
    var w := NgramKeyOf(q, n, k);
    AlignedAt(cq, tail, p, w);
    AlignedAt(cq, tail, p, w + n);
    assert tail[w] == ct[j + w] && tail[w + n] == ct[j + w + n];
    SameSlice(t, q, p, cq[w], cq[w + n]);
    NgramKeyAt(t, n, j + w);
    assert NgramKeys(t, n)[j + w] == k;
  }

  lemma {:induction false} WholeValid(t: seq<Byte>, q: seq<Byte>)
    requires Utf8.Valid(t) && Utf8.Valid(q)
    ensures ValidFrom(t, 0) && ValidFrom(q, 0)
  {
  }

  lemma {:induction false} SameSlice(t: seq<Byte>, q: seq<Byte>, p: nat, a: nat, b: nat)
    requires Occurs(t, q, p) && a <= b <= |q|
    ensures q[a..b] == t[p + a..p + b]
  {
    forall i | 0 <= i < b - a ensures q[a..b][i] == t[p + a..p + b][i] { assert t[p..p + |q|][a + i] == q[a + i]; }
  }

  /** A query of at least `n` scalars has keys; a shorter one has none. */
  lemma {:induction false} KeysIffLongEnough(q: seq<Byte>, n: nat)
    requires Utf8.Valid(q) && n > 0
    ensures NgramKeys(q, n) == [] <==> |CharStarts(q, 0)| - 1 < n
  {
  }

  // ----- keys of a query -----

  function NgramQueryKeys(query: seq<Byte>, n: nat, maxBytes: U64, maxTerms: U64): Result<seq<Key>>
    requires Utf8.Valid(query)
  {
    if |query| > maxBytes || n == 0 then Err
    else
      var keys := Distinct(NgramKeys(query, n));
      if |keys| > maxTerms then Err else Ok(keys)
  }

  method NgramKeysForQuery(query: seq<Byte>, n: nat, maxBytes: U64, maxTerms: U64) returns (r: Result<seq<Key>>)
    requires Utf8.Valid(query)
    ensures r == NgramQueryKeys(query, n, maxBytes, maxTerms)
  {
    hide Distinct, Insert, Less;
    if |query| > maxBytes { return Err; }
    if n == 0 { return Err; }
    var charStarts := CharStarts(query, 0);
    ghost var all := NgramKeys(query, n);
    DistinctNone();
    if |charStarts| - 1 < n { return Ok([]); }
    var keys: seq<Key> := [];
    assert all[..0] == [];
    for w := 0 to |charStarts| - n
      invariant keys == Distinct(all[..w]) && |keys| <= maxTerms
    {
      var key := query[charStarts[w]..charStarts[w + n]];
      assert all[..w + 1] == all[..w] + [key];
      DistinctExact(all[..w]);
      DistinctSnoc(all[..w], key);
      InsertExact(keys, key);
      if key !in keys {
        if |keys| >= maxTerms { DistinctGrows(all, w + 1); return Err; }
        keys := Insert(keys, key);
      }
    }
    assert all[..|all|] == all;
    return Ok(keys);
  }

  // ----- substring verification -----

  /** Occurrences of the query that start at `p` or later, overlapping ones included. */
  function Occurrences(bytes: seq<Byte>, query: seq<Byte>, p: nat): (ms: seq<Match>)
    decreases |bytes| - p
  {
    if query == [] || p + |query| > |bytes| then []
    else (if bytes[p..p + |query|] == query then [Match(0, p, p + |query|)] else []) + Occurrences(bytes, query, p + 1)
  }

  lemma {:induction false} OccurrencesExact(bytes: seq<Byte>, query: seq<Byte>, p: nat)
    requires query != []
    ensures forall m :: m in Occurrences(bytes, query, p) <==> m.key == 0 && m.end == m.start + |query| && p <= m.start && Occurs(bytes, query, m.start)
    ensures forall i, j :: 0 <= i < j < |Occurrences(bytes, query, p)| ==> Occurrences(bytes, query, p)[i].start < Occurrences(bytes, query, p)[j].start
    decreases |bytes| - p
  {
    if p + |query| <= |bytes| {
      OccurrencesExact(bytes, query, p + 1);
      var rest := Occurrences(bytes, query, p + 1);
      var here := if Occurs(bytes, query, p) then [Match(0, p, p + |query|)] else [];
      assert Occurrences(bytes, query, p) == here + rest;
      hide Occurrences;
      assert forall i :: 0 <= i < |rest| ==> rest[i] in rest;
    } else {
      assert Occurrences(bytes, query, p) == [];
    }
  }

  method SubstringSpans(bytes: seq<Byte>, query: seq<Byte>, limit: nat) returns (spans: seq<Match>)
    ensures spans == Take(Occurrences(bytes, query, 0), limit)
  {
    if limit == 0 || query == [] || |query| > |bytes| { return []; }
    spans := [];
    ghost var all := Occurrences(bytes, query, 0);
    for start := 0 to |bytes| - |query| + 1
      invariant |spans| < limit && spans + Occurrences(bytes, query, start) == all
    {
      var end := start + |query|;
      if bytes[start..end] == query {
        assert all == (spans + [Match(0, start, end)]) + Occurrences(bytes, query, start + 1);
        spans := spans + [Match(0, start, end)];
        if |spans| == limit { return; }
      } else {
        assert Occurrences(bytes, query, start) == Occurrences(bytes, query, start + 1);
      }
    }
  }
}
