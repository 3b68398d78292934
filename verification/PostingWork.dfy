/** What intersecting posting lists costs, counted in ids. */
module PostingWork {
  import opened Bytes
  import opened Delta
  import opened Postings

  /** The ids a merge looks at: all ids of both lists up to the end of the one that ends first. */
  ghost function Compared(left: seq<U64>, right: seq<U64>): set<U64> {
    if left == [] || right == [] then {}
    else set x | x in left + right && x <= left[|left| - 1] && x <= right[|right| - 1]
  }

  lemma {:induction false} LastIsLargest(values: seq<U64>, x: U64)
    requires Increasing(values) && x in values
    ensures values[0] <= x <= values[|values| - 1]
  {
  }

  /** Advancing past a smaller first id. */
  lemma {:induction false} SkipFirst(left: seq<U64>, right: seq<U64>)
    requires Increasing(left) && Increasing(right) && left != [] && right != [] && left[0] < right[0]
    ensures Increasing(left[1..]) && left[0] !in Compared(left[1..], right)
    ensures Compared(left, right) == {left[0]} + Compared(left[1..], right)
    ensures Compared(right, left) == {left[0]} + Compared(right, left[1..])
    ensures left[0] !in Compared(right, left[1..])
  {
    AboveFirst(left);
    assert left == [left[0]] + left[1..];
    assert left[|left| - 1] in left && right[|right| - 1] in right;
    LastIsLargest(left, left[|left| - 1]);
    LastIsLargest(right, right[|right| - 1]);
    forall x | x in right ensures right[0] <= x { LastIsLargest(right, x); }
    forall x | x in left ensures left[0] <= x <= left[|left| - 1] { LastIsLargest(left, x); }
  }

  lemma {:induction false} SkipBoth(left: seq<U64>, right: seq<U64>)
    requires Increasing(left) && Increasing(right) && left != [] && right != [] && left[0] == right[0]
    ensures Increasing(left[1..]) && Increasing(right[1..]) && left[0] !in Compared(left[1..], right[1..])
    ensures Compared(left, right) == {left[0]} + Compared(left[1..], right[1..])
  {
    AboveFirst(left);
    AboveFirst(right);
    assert left == [left[0]] + left[1..] && right == [right[0]] + right[1..];
    assert left[|left| - 1] in left && right[|right| - 1] in right;
    forall x | x in right ensures right[0] <= x <= right[|right| - 1] { LastIsLargest(right, x); }
    forall x | x in left ensures left[0] <= x <= left[|left| - 1] { LastIsLargest(left, x); }
  }

  /** One unit for every id looked at and one more for every id in both lists. */
  lemma {:induction false} MergeWorkIs(left: seq<U64>, right: seq<U64>)
    requires Increasing(left) && Increasing(right)
    ensures MergeWork(left, right) == |Compared(left, right)| + |Common(left, right)|
    decreases |left| + |right|
  {
    hide Compared, Increasing;
    if left == [] || right == [] {
      NothingCompared(left, right);
    } else if left[0] < right[0] {
      SkipFirst(left, right);
      MergeWorkIs(left[1..], right);
    } else if left[0] > right[0] {
      SkipFirst(right, left);
      MergeWorkIs(left, right[1..]);
    } else {
      SkipBoth(left, right);
      MergeWorkIs(left[1..], right[1..]);
    }
  }

  lemma {:induction false} NothingCompared(left: seq<U64>, right: seq<U64>)
    requires left == [] || right == []
    ensures Compared(left, right) == {}
  {
  }

  lemma {:induction false} MergeAllSnoc(current: seq<U64>, lists: seq<seq<U64>>, list: seq<U64>)
    ensures MergeAll(current, lists + [list]) == Common(MergeAll(current, lists), list)
    ensures MergeAllWork(current, lists + [list]) == MergeAllWork(current, lists) + MergeWork(MergeAll(current, lists), list)
    decreases |lists|
  {
    hide Common, MergeWork;
    if lists == [] {
      assert [list][1..] == [];
    } else {
      assert (lists + [list])[1..] == lists[1..] + [list];
      MergeAllSnoc(Common(current, lists[0]), lists[1..], list);
    }
  }

  /** The whole intersection: the first list is copied, each further one is merged with what is left. */
  lemma {:induction false} IntersectionWorkIs(lists: seq<seq<U64>>, list: seq<U64>)
    ensures IntersectionWork([list]) == |list|
    ensures lists != [] && AllIncreasing(lists) && Increasing(list) ==>
              IntersectionWork(lists + [list]) ==
              IntersectionWork(lists) + |Compared(Intersection(lists), list)| + |Intersection(lists + [list])|
  {
    hide Compared, MergeWork, Common, Increasing;
    assert [list][1..] == [];
    if lists != [] && AllIncreasing(lists) && Increasing(list) {
      assert (lists + [list])[1..] == lists[1..] + [list];
      MergeAllSnoc(lists[0], lists[1..], list);
      IntersectionExact(lists);
      MergeWorkIs(Intersection(lists), list);
    }
  }
}
