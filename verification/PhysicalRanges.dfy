/** Physical byte ranges of a container file, checked for overlap by sorting once. */
module PhysicalRanges {
  import opened Bytes

  const HEADER_LEN: nat := 128
  const FOOTER_TRAILER_LEN: nat := 64

  datatype PhysicalRange = PhysicalRange(offset: U64, size: U64) {
    function End(): nat { offset + size }

    /** `end()`: failure past u64. */
    function CheckedEnd(): Result<U64> { CheckedAdd(offset, size) }
  }

  /** Half-open overlap; an empty range overlaps what strictly surrounds it. */
  predicate Overlaps(a: PhysicalRange, b: PhysicalRange) { a.offset < b.End() && b.offset < a.End() }

  predicate Holds(r: PhysicalRange, x: nat) { r.offset <= x < r.offset + r.size }

  /** Nonempty ranges overlap where they share a byte, an empty one where its position is inside the other. */
  lemma {:induction false} OverlapsIs(a: PhysicalRange, b: PhysicalRange)
    ensures a.size > 0 && b.size > 0 ==> (Overlaps(a, b) <==> exists x :: Holds(a, x) && Holds(b, x))
    ensures a.size == 0 ==> (Overlaps(a, b) <==> b.offset < a.offset < b.offset + b.size)
    ensures b.size == 0 ==> (Overlaps(a, b) <==> a.offset < b.offset < a.offset + a.size)
  {
    if a.size > 0 && b.size > 0 && Overlaps(a, b) {
      var x := Max(a.offset, b.offset);
      assert Holds(a, x) && Holds(b, x);
    }
  }

  /** `(offset, size)` order. */
  predicate Before(a: PhysicalRange, b: PhysicalRange) {
    a.offset < b.offset || (a.offset == b.offset && a.size < b.size)
  }

  function Insert(r: PhysicalRange, sorted: seq<PhysicalRange>): seq<PhysicalRange> {
    if sorted == [] || !Before(sorted[0], r) then [r] + sorted else [sorted[0]] + Insert(r, sorted[1..])
  }

  /** Stable sort by offset, then size. */
  function Sort(ranges: seq<PhysicalRange>): seq<PhysicalRange> {
    if ranges == [] then [] else Insert(ranges[0], Sort(ranges[1..]))
  }

  ghost predicate ApartFrom(r: PhysicalRange, others: seq<PhysicalRange>) {
    forall i :: 0 <= i < |others| ==> !Overlaps(r, others[i])
  }

  ghost predicate PairwiseApart(ranges: seq<PhysicalRange>) {
    forall i, j :: 0 <= i < j < |ranges| ==> !Overlaps(ranges[i], ranges[j])
  }

  lemma {:induction false} ApartCons(a: PhysicalRange, rest: seq<PhysicalRange>)
    ensures PairwiseApart([a] + rest) <==> ApartFrom(a, rest) && PairwiseApart(rest)
    ensures forall r :: ApartFrom(r, [a] + rest) <==> !Overlaps(r, a) && ApartFrom(r, rest)
  {
    var all := [a] + rest;
    if PairwiseApart(all) {
      forall i | 0 <= i < |rest| ensures !Overlaps(a, rest[i]) { assert !Overlaps(all[0], all[i + 1]); }
      forall i, j | 0 <= i < j < |rest| ensures !Overlaps(rest[i], rest[j]) { assert !Overlaps(all[i + 1], all[j + 1]); }
    }
    forall r ensures ApartFrom(r, all) <==> !Overlaps(r, a) && ApartFrom(r, rest) {
      if ApartFrom(r, all) {
        assert !Overlaps(r, all[0]);
        forall i | 0 <= i < |rest| ensures !Overlaps(r, rest[i]) { assert !Overlaps(r, all[i + 1]); }
      }
    }
  }

  lemma {:induction false} InsertApart(r: PhysicalRange, s: seq<PhysicalRange>)
    ensures PairwiseApart(Insert(r, s)) <==> ApartFrom(r, s) && PairwiseApart(s)
    ensures forall x :: ApartFrom(x, Insert(r, s)) <==> !Overlaps(x, r) && ApartFrom(x, s)
    decreases |s|
  {
    if s == [] || !Before(s[0], r) {
      ApartCons(r, s);
    } else {
      InsertApart(r, s[1..]);
      ApartCons(s[0], Insert(r, s[1..]));
      ApartCons(s[0], s[1..]);
      assert s == [s[0]] + s[1..];
    }
  }

  /** Sorting does not change whether the ranges are pairwise apart. */
  lemma {:induction false} SortApart(ranges: seq<PhysicalRange>)
    ensures PairwiseApart(Sort(ranges)) <==> PairwiseApart(ranges)
    ensures forall x :: ApartFrom(x, Sort(ranges)) <==> ApartFrom(x, ranges)
    decreases |ranges|
  {
    if ranges != [] {
      SortApart(ranges[1..]);
      InsertApart(ranges[0], Sort(ranges[1..]));
      ApartCons(ranges[0], ranges[1..]);
      assert ranges == [ranges[0]] + ranges[1..];
    }
  }

  predicate Sorted(s: seq<PhysicalRange>) {
    |s| >= 2 ==> !Before(s[1], s[0]) && Sorted(s[1..])
  }

  lemma {:induction false} InsertSorted(r: PhysicalRange, s: seq<PhysicalRange>)
    requires Sorted(s)
    ensures Sorted(Insert(r, s))
    decreases |s|
  {
    if s == [] || !Before(s[0], r) {
      assert ([r] + s)[1..] == s;
    } else {
      InsertSorted(r, s[1..]);
      assert Insert(r, s)[1..] == Insert(r, s[1..]);
    }
  }

  lemma {:induction false} SortSorted(ranges: seq<PhysicalRange>)
    ensures Sorted(Sort(ranges))
    decreases |ranges|
  {
    if ranges != [] {
      SortSorted(ranges[1..]);
      InsertSorted(ranges[0], Sort(ranges[1..]));
    }
  }

  predicate AdjacentApart(s: seq<PhysicalRange>) {
    |s| >= 2 ==> !Overlaps(s[0], s[1]) && AdjacentApart(s[1..])
  }

  /** In sorted order neighbours decide for all pairs, empty ranges included. */
  lemma {:induction false} AdjacentDecides(s: seq<PhysicalRange>)
    requires Sorted(s)
    ensures AdjacentApart(s) <==> PairwiseApart(s)
    ensures AdjacentApart(s) ==> forall i :: 1 <= i < |s| ==> s[0].End() <= s[i].offset
    decreases |s|
  {
    if |s| >= 2 {
      AdjacentDecides(s[1..]);
      ApartCons(s[0], s[1..]);
      assert s == [s[0]] + s[1..];
      if AdjacentApart(s) {
        assert s[0].End() <= s[1].offset;
        forall i | 1 <= i < |s| ensures s[0].End() <= s[i].offset {
          if i > 1 { assert s[1..][0].End() <= s[1..][i - 1].offset; }
        }
        forall i | 0 <= i < |s[1..]| ensures !Overlaps(s[0], s[1..][i]) { assert s[0].End() <= s[i + 1].offset; }
      }
    }
  }

  /** Inside the file and clear of the fixed header and trailer. */
  predicate InBody(r: PhysicalRange, fileSize: U64)
    requires fileSize >= HEADER_LEN + FOOTER_TRAILER_LEN
  {
    && r.End() <= fileSize
    && !Overlaps(r, PhysicalRange(0, HEADER_LEN))
    && !Overlaps(r, PhysicalRange(fileSize - FOOTER_TRAILER_LEN, FOOTER_TRAILER_LEN))
  }

  /** In positions: a nonempty range lies between header and trailer; an empty one is strictly inside neither. */
  lemma {:induction false} InBodyIs(r: PhysicalRange, fileSize: U64)
    requires fileSize >= 192
    ensures r.size > 0 ==> (InBody(r, fileSize) <==> 128 <= r.offset && r.offset + r.size <= fileSize - 64)
    ensures r.size == 0 ==> (InBody(r, fileSize) <==> r.offset <= fileSize && !(0 < r.offset < 128) && !(fileSize - 64 < r.offset < fileSize))
  {
  }

  method ValidatePhysicalRanges(fileSize: U64, ranges: seq<PhysicalRange>) returns (ok: bool)
    ensures ok <==> && fileSize >= HEADER_LEN + FOOTER_TRAILER_LEN
                    && (forall i :: 0 <= i < |ranges| ==> InBody(ranges[i], fileSize))
                    && PairwiseApart(ranges)
  {
    if fileSize < HEADER_LEN + FOOTER_TRAILER_LEN { return false; }
    for i := 0 to |ranges|
      invariant forall j :: 0 <= j < i ==> InBody(ranges[j], fileSize)
    {
      if ranges[i].CheckedEnd().Err? { return false; }
      if !InBody(ranges[i], fileSize) { return false; }
    }
    var sorted := Sort(ranges);
    SortSorted(ranges);
    SortApart(ranges);
    AdjacentDecides(sorted);
    assert sorted[0..] == sorted;
    var i := 0;
    while i + 1 < |sorted|
      invariant 0 <= i <= |sorted|
      invariant AdjacentApart(sorted) <==> AdjacentApart(sorted[i..])
    {
      assert sorted[i..][1..] == sorted[i + 1..];
      if Overlaps(sorted[i], sorted[i + 1]) { return false; }
      i := i + 1;
    }
    return true;
  }
}
