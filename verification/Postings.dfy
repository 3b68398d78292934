/** Planning over posting lists: intersection under a work budget, and counting candidate chunks. */
module Postings {
  import opened Bytes
  import opened Delta

  // ----- intersection -----

  /** The merge of two lists, as its cursor loop walks them. */
  function Common(left: seq<U64>, right: seq<U64>): (r: seq<U64>)
    decreases |left| + |right|
  {
    if left == [] || right == [] then []
    else if left[0] < right[0] then Common(left[1..], right)
    else if left[0] > right[0] then Common(left, right[1..])
    else [left[0]] + Common(left[1..], right[1..])
  }

  /** One unit per comparison and one per id copied. */
  function MergeWork(left: seq<U64>, right: seq<U64>): (w: nat)
    ensures w <= |left| + |right|
    decreases |left| + |right|
  {
    if left == [] || right == [] then 0
    else if left[0] < right[0] then 1 + MergeWork(left[1..], right)
    else if left[0] > right[0] then 1 + MergeWork(left, right[1..])
    else 2 + MergeWork(left[1..], right[1..])
  }

  lemma {:induction false} CommonExact(left: seq<U64>, right: seq<U64>)
    requires Increasing(left) && Increasing(right)
    ensures forall x :: x in Common(left, right) <==> x in left && x in right
    ensures Increasing(Common(left, right))
    decreases |left| + |right|
  {
    if left != [] && right != [] {
      var l, r := left[1..], right[1..];
      assert left == [left[0]] + l && right == [right[0]] + r;
      assert forall x :: x in l ==> left[0] < x by { AboveFirst(left); }
      assert forall x :: x in r ==> right[0] < x by { AboveFirst(right); }
      if left[0] < right[0] {
        CommonExact(l, right);
      } else if left[0] > right[0] {
        CommonExact(left, r);
      } else {
        CommonExact(l, r);
        IncreasingCons(left[0], Common(l, r));
      }
    }
  }

  lemma {:induction false} AboveFirst(values: seq<U64>)
    requires Increasing(values) && values != []
    ensures Increasing(values[1..]) && forall x :: x in values[1..] ==> values[0] < x
  {
  }

  lemma {:induction false} IncreasingCons(v: U64, values: seq<U64>)
    requires Increasing(values) && forall x :: x in values ==> v < x
    ensures Increasing([v] + values)
  {
    var all := [v] + values;
    forall i, j | 0 <= i < j < |all| ensures all[i] < all[j] { assert all[j] == values[j - 1] && values[j - 1] in values; }
  }

  method IntersectTwoSorted(left: seq<U64>, right: seq<U64>, work: U64, maxWork: U64) returns (r: Result<(seq<U64>, U64)>)
    ensures r.Ok? <==> (work + MergeWork(left, right) <= maxWork || MergeWork(left, right) == 0)
    ensures r.Ok? ==> r.value == (Common(left, right), work + MergeWork(left, right))
  {
    var output: seq<U64> := [];
    var spent := work;
    var i, j := 0, 0;
    while i < |left| && j < |right|
      invariant i <= |left| && j <= |right|
      invariant spent == work || spent <= maxWork
      invariant work <= spent && spent + MergeWork(left[i..], right[j..]) == work + MergeWork(left, right)
      invariant output + Common(left[i..], right[j..]) == Common(left, right)
      decreases |left| - i + |right| - j
    {
      var l, r' := left[i..], right[j..];
      assert l[1..] == left[i + 1..] && r'[1..] == right[j + 1..];
      if spent + 1 > maxWork { return Err; }
      spent := spent + 1;
      if left[i] < right[j] {
        i := i + 1;
      } else if left[i] > right[j] {
        j := j + 1;
      } else {
        if spent + 1 > maxWork { return Err; }
        spent := spent + 1;
        assert output + Common(l, r') == (output + [left[i]]) + Common(l[1..], r'[1..]);
        output := output + [left[i]];
        i, j := i + 1, j + 1;
      }
    }
    assert output + [] == output;
    return Ok((output, spent));
  }

  /** The first list merged with the rest, one after another. */
  function MergeAll(current: seq<U64>, lists: seq<seq<U64>>): seq<U64>
    decreases |lists|
  {
    if lists == [] then current else MergeAll(Common(current, lists[0]), lists[1..])
  }

  function MergeAllWork(current: seq<U64>, lists: seq<seq<U64>>): nat
    decreases |lists|
  {
    if lists == [] then 0 else MergeWork(current, lists[0]) + MergeAllWork(Common(current, lists[0]), lists[1..])
  }

  lemma {:induction false} MergeNothing(lists: seq<seq<U64>>)
    ensures MergeAll([], lists) == [] && MergeAllWork([], lists) == 0
  {
    if lists != [] { MergeNothing(lists[1..]); }
  }

  function Intersection(lists: seq<seq<U64>>): seq<U64> {
    if lists == [] then [] else MergeAll(lists[0], lists[1..])
  }

  function IntersectionWork(lists: seq<seq<U64>>): nat {
    if lists == [] then 0 else |lists[0]| + MergeAllWork(lists[0], lists[1..])
  }

  ghost predicate AllIncreasing(lists: seq<seq<U64>>) { forall i :: 0 <= i < |lists| ==> Increasing(lists[i]) }

  ghost predicate InAll(lists: seq<seq<U64>>, x: U64) { forall i :: 0 <= i < |lists| ==> x in lists[i] }

  lemma {:induction false} MergeAllExact(current: seq<U64>, lists: seq<seq<U64>>)
    requires Increasing(current) && AllIncreasing(lists)
    ensures Increasing(MergeAll(current, lists))
    ensures forall x :: x in MergeAll(current, lists) <==> x in current && InAll(lists, x)
    decreases |lists|
  {
    hide Common;
    if lists != [] {
      CommonExact(current, lists[0]);
      MergeAllExact(Common(current, lists[0]), lists[1..]);
      forall x: U64 ensures InAll(lists, x) <==> x in lists[0] && InAll(lists[1..], x) {
        assert lists == [lists[0]] + lists[1..];
        if x in lists[0] && InAll(lists[1..], x) {
          forall i | 0 <= i < |lists| ensures x in lists[i] { if i > 0 { assert lists[i] == lists[1..][i - 1]; } }
        }
      }
    }
  }

  /** Of increasing lists the result is exactly the set intersection, in increasing order. */
  lemma {:induction false} IntersectionExact(lists: seq<seq<U64>>)
    requires AllIncreasing(lists) && lists != []
    ensures Increasing(Intersection(lists))
    ensures forall x :: x in Intersection(lists) <==> InAll(lists, x)
  {
    MergeAllExact(lists[0], lists[1..]);
    forall x: U64 ensures InAll(lists, x) <==> x in lists[0] && InAll(lists[1..], x) {
      if x in lists[0] && InAll(lists[1..], x) {
        forall i | 0 <= i < |lists| ensures x in lists[i] { if i > 0 { assert lists[i] == lists[1..][i - 1]; } }
      }
    }
  }

  function TotalIds(lists: seq<seq<U64>>): nat {
    if lists == [] then 0 else |lists[0]| + TotalIds(lists[1..])
  }

  lemma {:induction false} CommonSmaller(left: seq<U64>, right: seq<U64>)
    ensures |Common(left, right)| <= |left| && |Common(left, right)| <= |right|
    decreases |left| + |right|
  {
    if left != [] && right != [] {
      if left[0] < right[0] { CommonSmaller(left[1..], right); }
      else if left[0] > right[0] { CommonSmaller(left, right[1..]); }
      else { CommonSmaller(left[1..], right[1..]); }
    }
  }

  /** Each merge costs at most the two lengths it touches; the running list never grows. */
  lemma {:induction false} MergeAllWorkBound(current: seq<U64>, lists: seq<seq<U64>>)
    ensures MergeAllWork(current, lists) <= |lists| * |current| + TotalIds(lists)
    decreases |lists|
  {
    if lists != [] {
      hide Common, MergeWork;
      var next := Common(current, lists[0]);
      CommonSmaller(current, lists[0]);
      MergeAllWorkBound(next, lists[1..]);
      Scaled(|lists|, |next|, |current|);
    }
  }

  lemma {:induction false} Scaled(n: nat, x: nat, y: nat)
    requires n > 0 && x <= y
    ensures (n - 1) * x + y <= n * y
    decreases n
  {
    if n > 1 {
      Scaled(n - 1, x, y);
      assert (n - 1) * x == (n - 2) * x + x;
      assert n * y == (n - 1) * y + y;
    }
  }

  /** `intersect_postings`: the intersection, or an error exactly when its work exceeds the budget. */
  method IntersectPostings(lists: seq<seq<U64>>, maxWork: U64) returns (r: Result<seq<U64>>)
    requires forall i :: 0 <= i < |lists| ==> |lists[i]| <= U64_MAX
    ensures r == if IntersectionWork(lists) <= maxWork then Ok(Intersection(lists)) else Err
  {
    if lists == [] { return Ok([]); }
    var work: U64 := |lists[0]|;
    if work > maxWork { return Err; }
    var current := lists[0];
    assert lists[1..] == lists[1..][0..];
    for i := 1 to |lists|
      invariant work <= maxWork
      invariant MergeAll(current, lists[i..]) == Intersection(lists)
      invariant work + MergeAllWork(current, lists[i..]) == IntersectionWork(lists)
    {
      assert lists[i..][1..] == lists[i + 1..] && lists[i..][0] == lists[i];
      var next := IntersectTwoSorted(current, lists[i], work, maxWork);
      if next.Err? { return Err; }
      current, work := next.value.0, next.value.1;
      if current == [] { MergeNothing(lists[i + 1..]); break; }
    }
    return Ok(current);
  }

  // ----- chunks covered by candidate granules -----

  type ChunkSpan = (U64, U64)

  ghost function Interval(a: nat, b: nat): (s: set<nat>)
    ensures forall x :: x in s <==> a <= x < b
  {
    if a >= b then {} else Interval(a, b - 1) + {b - 1}
  }

  /** The chunks covered by a list of spans. */
  ghost function Covered(spans: seq<ChunkSpan>): set<nat> {
    if spans == [] then {} else Covered(spans[..|spans| - 1]) + Interval(spans[|spans| - 1].0, spans[|spans| - 1].1)
  }

  lemma {:induction false} CoveredExact(spans: seq<ChunkSpan>, x: nat)
    ensures x in Covered(spans) <==> exists s :: s in spans && s.0 <= x < s.1
  {
    if spans != [] {
      var last := spans[|spans| - 1];
      assert spans == spans[..|spans| - 1] + [last];
      CoveredExact(spans[..|spans| - 1], x);
    }
  }

  lemma {:induction false} IntervalSize(a: nat, b: nat)
    requires a <= b
    ensures |Interval(a, b)| == b - a
    decreases b - a
  {
    if a < b { IntervalSize(a, b - 1); }
  }

  function InsertSpan(spans: seq<ChunkSpan>, s: ChunkSpan): (r: seq<ChunkSpan>)
    ensures multiset(r) == multiset(spans) + multiset{s}
  {
    if spans == [] || s.0 <= spans[0].0 then [s] + spans
    else
      assert spans == [spans[0]] + spans[1..];
      [spans[0]] + InsertSpan(spans[1..], s)
  }

  predicate ByStart(spans: seq<ChunkSpan>) { forall i, j :: 0 <= i < j < |spans| ==> spans[i].0 <= spans[j].0 }

  lemma {:induction false} InsertSpanSorted(spans: seq<ChunkSpan>, s: ChunkSpan)
    requires ByStart(spans)
    ensures ByStart(InsertSpan(spans, s))
    decreases |spans|
  {
    if spans != [] && s.0 > spans[0].0 {
      var rest := InsertSpan(spans[1..], s);
      InsertSpanSorted(spans[1..], s);
      forall x | x in rest ensures spans[0].0 <= x.0 { assert x in multiset(rest); assert x in spans[1..] || x == s; }
    }
  }

  /** The order in which spans are scanned; ties may come in any order. */
  function SortSpans(spans: seq<ChunkSpan>): (r: seq<ChunkSpan>)
    ensures multiset(r) == multiset(spans)
  {
    if spans == [] then []
    else
      assert spans == [spans[0]] + spans[1..];
      InsertSpan(SortSpans(spans[1..]), spans[0])
  }

  lemma {:induction false} SortSpansSorted(spans: seq<ChunkSpan>)
    ensures ByStart(SortSpans(spans))
  {
    if spans != [] {
      SortSpansSorted(spans[1..]);
      InsertSpanSorted(SortSpans(spans[1..]), spans[0]);
    }
  }

  lemma {:induction false} SameCover(a: seq<ChunkSpan>, b: seq<ChunkSpan>)
    requires multiset(a) == multiset(b)
    ensures Covered(a) == Covered(b)
  {
    forall s ensures s in a <==> s in b { assert s in a <==> s in multiset(a); assert s in b <==> s in multiset(b); }
    forall x: nat ensures x in Covered(a) <==> x in Covered(b) { CoveredExact(a, x); CoveredExact(b, x); }
  }

  /** Scanned so far: the cover ends at `end`, the end of some scanned span. */
  ghost predicate CoverEnds(spans: seq<ChunkSpan>, end: nat) {
    && (forall s :: s in spans ==> s.1 <= end)
    && (end > 0 ==> exists s :: s in spans && s.1 == end)
  }

  /** The next span by start adds exactly its part beyond the cover. */
  lemma {:induction false} NextSpanAdds(spans: seq<ChunkSpan>, end: nat, s: ChunkSpan)
    requires CoverEnds(spans, end) && s.0 < s.1 && forall p :: p in spans ==> p.0 <= s.0
    ensures |Covered(spans + [s])| == |Covered(spans)| + (if s.1 > Max(s.0, end) then s.1 - Max(s.0, end) else 0)
    ensures CoverEnds(spans + [s], if s.1 > Max(s.0, end) then s.1 else end)
  {
    hide Covered, Interval;
    var from := Max(s.0, end);
    var added := Interval(from, s.1);
    forall x: nat ensures x in Covered(spans + [s]) <==> x in Covered(spans) || x in added { NextSpanCovers(spans, end, s, x); }
    assert Covered(spans + [s]) == Covered(spans) + added;
    forall x | x in added ensures x !in Covered(spans) { CoveredExact(spans, x); }
    assert Covered(spans) !! added;
    IntervalSize(from, Max(from, s.1));
    assert added == Interval(from, Max(from, s.1));
    NextSpanEnds(spans, end, s);
  }

  lemma {:induction false} NextSpanCovers(spans: seq<ChunkSpan>, end: nat, s: ChunkSpan, x: nat)
    requires CoverEnds(spans, end) && s.0 < s.1 && forall p :: p in spans ==> p.0 <= s.0
    ensures x in Covered(spans + [s]) <==> x in Covered(spans) || Max(s.0, end) <= x < s.1
  {
    hide Interval;
    var all := spans + [s];
    assert all[..|spans|] == spans && all[|spans|] == s;
    assert x in Covered(all) <==> x in Covered(spans) || s.0 <= x < s.1;
    hide Covered;
    if s.0 <= x < end {
      CoveredExact(spans, x);
      var p :| p in spans && p.1 == end;
      assert p.0 <= x < p.1;
    }
  }

  lemma {:induction false} NextSpanEnds(spans: seq<ChunkSpan>, end: nat, s: ChunkSpan)
    requires CoverEnds(spans, end) && s.0 < s.1
    ensures CoverEnds(spans + [s], if s.1 > Max(s.0, end) then s.1 else end)
  {
    var all := spans + [s];
    assert forall p :: p in all <==> p in spans || p == s;
    var last := if s.1 > Max(s.0, end) then s.1 else end;
    if last == s.1 {
      assert s in all;
    } else {
      var p :| p in spans && p.1 == end;
      assert p in all;
    }
  }

  lemma {:induction false} CoverBelow(spans: seq<ChunkSpan>, end: nat)
    requires CoverEnds(spans, end)
    ensures |Covered(spans)| <= end
  {
    forall x | x in Covered(spans) ensures x in Interval(0, end) { CoveredExact(spans, x); }
    IntervalSize(0, end);
    SubsetSize(Covered(spans), Interval(0, end));
  }

  lemma {:induction false} SubsetSize(a: set<nat>, b: set<nat>)
    requires a <= b
    ensures |a| <= |b|
    decreases a
  {
    if a != {} { var x :| x in a; SubsetSize(a - {x}, b - {x}); }
  }

  /** `count_chunk_spans`: the number of distinct chunks covered; it cannot overflow. */
  method CountChunkSpans(spans: seq<ChunkSpan>) returns (r: Result<U64>)
    ensures r.Ok? <==> forall i :: 0 <= i < |spans| ==> spans[i].0 < spans[i].1
    ensures r.Ok? ==> r.value == |Covered(spans)|
  {
    hide Covered, Interval, CoverEnds;
    for i := 0 to |spans|
      invariant forall k :: 0 <= k < i ==> spans[k].0 < spans[k].1
    {
      if spans[i].0 >= spans[i].1 { return Err; }
    }
    var sorted := SortSpans(spans);
    SortSpansSorted(spans);
    SameCover(sorted, spans);
    assert forall s :: s in sorted ==> s.0 < s.1 by { AllNonempty(spans, sorted); }
    hide SortSpans;
    var total: U64, coveredEnd: U64 := 0, 0;
    EmptyCover();
    assert sorted[..0] == [];
    for i := 0 to |sorted|
      invariant total == |Covered(sorted[..i])| && CoverEnds(sorted[..i], coveredEnd)
    {
      var (start, end) := sorted[i];
      assert sorted[..i + 1] == sorted[..i] + [sorted[i]];
      assert sorted[i] in sorted;
      NextSpanAdds(sorted[..i], coveredEnd, sorted[i]);
      var uncoveredStart := Max(start, coveredEnd);
      if end > uncoveredStart {
        CoverBelow(sorted[..i + 1], end);
        total := total + (end - uncoveredStart);
        coveredEnd := end;
      }
    }
    assert sorted[..|sorted|] == sorted;
    return Ok(total);
  }

  lemma {:induction false} EmptyCover()
    ensures |Covered([])| == 0 && CoverEnds([], 0)
  {
  }

  lemma {:induction false} AllNonempty(spans: seq<ChunkSpan>, sorted: seq<ChunkSpan>)
    requires multiset(sorted) == multiset(spans) && forall i :: 0 <= i < |spans| ==> spans[i].0 < spans[i].1
    ensures forall s :: s in sorted ==> s.0 < s.1
  {
    forall s | s in sorted ensures s.0 < s.1 { assert s in multiset(spans); }
  }
}
