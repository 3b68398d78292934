/** The order in which a query's posting lists are intersected, term by term. */
module PlanOrdering {
  import opened Bytes
  import opened Digits
  import opened Search

  /** At least `high` of every million granules hold the term. */
  predicate Frequent(x: Index, high: nat, i: nat)
    requires i < |x.postings|
  {
    1_000_000 * |x.postings[i]| >= high * Max(|x.granules|, 1)
  }

  /** Term `i` goes before term `j`: frequent n-grams last, shorter lists first, ties by position in the dictionary. */
  predicate Precedes(x: Index, order: PlanOrder, i: nat, j: nat)
    requires i < |x.postings| && j < |x.postings|
  {
    var shorter := |x.postings[i]| < |x.postings[j]| || (|x.postings[i]| == |x.postings[j]| && i < j);
    match order
    case ByLength => shorter
    case ByFrequency(high) => if Frequent(x, high, i) == Frequent(x, high, j) then shorter else Frequent(x, high, j)
  }

  lemma {:induction false} QuotientAtLeast(n: nat, g: nat, h: nat)
    requires g > 0
    ensures n / g >= h <==> n >= h * g
  {
    var q, r := n / g, n % g;
    assert n == q * g + r by { Divided(n, g); }
    assert n - h * g == (q - h) * g + r;
    Scaled(q - h, g);
  }

  /** The rank with ties by position is that order. */
  lemma {:induction false} RankPrecedes(x: Index, order: PlanOrder, i: nat, j: nat)
    requires i < |x.postings| && j < |x.postings| && i < j
    ensures Before(Rank(x, order, i), Rank(x, order, j)) <==> Precedes(x, order, i, j)
    ensures !Before(Rank(x, order, i), Rank(x, order, j)) ==> Precedes(x, order, j, i)
  {
    match order
    case ByLength =>
    case ByFrequency(high) =>
      QuotientAtLeast(1_000_000 * |x.postings[i]|, Max(|x.granules|, 1), high);
      QuotientAtLeast(1_000_000 * |x.postings[j]|, Max(|x.granules|, 1), high);
  }

  lemma {:induction false} PrecedesTransitive(x: Index, order: PlanOrder, i: nat, j: nat, k: nat)
    requires i < |x.postings| && j < |x.postings| && k < |x.postings|
    requires Precedes(x, order, i, j) && Precedes(x, order, j, k)
    ensures Precedes(x, order, i, k)
  {
    hide Frequent;
  }

  predicate InOrder(x: Index, order: PlanOrder, ixs: seq<nat>)
    requires Bounded(ixs, |x.postings|)
  {
    forall i, j :: 0 <= i < j < |ixs| ==> Precedes(x, order, ixs[i], ixs[j])
  }

  lemma {:induction false} ConsInOrder(x: Index, order: PlanOrder, first: nat, rest: seq<nat>)
    requires first < |x.postings| && Bounded(rest, |x.postings|) && InOrder(x, order, rest)
    requires forall i :: 0 <= i < |rest| ==> Precedes(x, order, first, rest[i])
    ensures InOrder(x, order, [first] + rest)
  {
    hide Precedes;
  }

  lemma {:induction false} PlaceInOrder(x: Index, order: PlanOrder, ix: nat, sorted: seq<nat>)
    requires ix < |x.postings| && Bounded(sorted, |x.postings|) && InOrder(x, order, sorted)
    requires forall i :: 0 <= i < |sorted| ==> ix < sorted[i]
    ensures InOrder(x, order, Place(x, order, ix, sorted))
    decreases |sorted|
  {
    hide Rank, Before, Precedes;
    if sorted != [] {
      var first := sorted[0];
      RankPrecedes(x, order, ix, first);
      if Before(Rank(x, order, ix), Rank(x, order, first)) {
        forall i | 0 <= i < |sorted| ensures Precedes(x, order, ix, sorted[i]) {
          if i > 0 { PrecedesTransitive(x, order, ix, first, sorted[i]); }
        }
        ConsInOrder(x, order, ix, sorted);
      } else {
        var rest := Place(x, order, ix, sorted[1..]);
        PlaceInOrder(x, order, ix, sorted[1..]);
        forall i | 0 <= i < |rest| ensures Precedes(x, order, first, rest[i]) {
          assert rest[i] in multiset(rest);
          if rest[i] != ix { var k :| 0 <= k < |sorted[1..]| && sorted[1..][k] == rest[i]; assert sorted[k + 1] == rest[i]; }
        }
        ConsInOrder(x, order, first, rest);
      }
    }
  }

  /** The plan is the query's terms in that order. */
  lemma {:induction false} PlanIs(x: Index, order: PlanOrder, ixs: seq<nat>)
    requires Bounded(ixs, |x.postings|) && forall i, j :: 0 <= i < j < |ixs| ==> ixs[i] < ixs[j]
    ensures multiset(PlanOf(x, order, ixs)) == multiset(ixs) && InOrder(x, order, PlanOf(x, order, ixs))
    decreases |ixs|
  {
    hide Place, InOrder;
    if ixs == [] {
      NothingInOrder(x, order);
    } else {
      var rest := PlanOf(x, order, ixs[1..]);
      PlanIs(x, order, ixs[1..]);
      forall i | 0 <= i < |rest| ensures ixs[0] < rest[i] {
        assert rest[i] in multiset(rest);
        var k :| 0 <= k < |ixs[1..]| && ixs[1..][k] == rest[i];
        assert ixs[k + 1] == rest[i];
      }
      PlaceInOrder(x, order, ixs[0], rest);
    }
  }

  lemma {:induction false} NothingInOrder(x: Index, order: PlanOrder)
    ensures InOrder(x, order, [])
  {
  }
}
