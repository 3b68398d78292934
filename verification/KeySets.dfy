/** Ordered sets of byte-string keys, kept as strictly ascending sequences, and lookup in them. */
module KeySets {
  import opened Bytes

  type Key = seq<Byte>

  predicate Sorted(keys: seq<Key>) {
    forall i, j :: 0 <= i < j < |keys| ==> Less(keys[i], keys[j])
  }

  /** The set with one more key. */
  function Insert(keys: seq<Key>, k: Key): seq<Key> {
    if keys == [] || Less(k, keys[0]) then [k] + keys
    else if keys[0] == k then keys
    else [keys[0]] + Insert(keys[1..], k)
  }

  function TotalBytes(keys: seq<Key>): nat {
    if keys == [] then 0 else |keys[0]| + TotalBytes(keys[1..])
  }

  lemma {:induction false} SortedAbove(keys: seq<Key>, k: Key)
    requires Sorted(keys) && keys != [] && (Less(k, keys[0]) || k == keys[0])
    ensures forall i :: 0 < i < |keys| ==> Less(k, keys[i])
    ensures Less(k, keys[0]) ==> k !in keys
    ensures k == keys[0] ==> k !in keys[1..]
  {
    forall i | 0 < i < |keys| ensures Less(k, keys[i]) {
      if k != keys[0] { LessTransitive(k, keys[0], keys[i]); }
    }
    LessIrreflexive(k);
  }

  lemma {:induction false} SortedCons(k: Key, keys: seq<Key>)
    requires Sorted(keys) && forall x :: x in keys ==> Less(k, x)
    ensures Sorted([k] + keys)
  {
    hide Less;
    var all := [k] + keys;
    forall i, j | 0 <= i < j < |all| ensures Less(all[i], all[j]) {
      assert all[j] == keys[j - 1] && keys[j - 1] in keys;
    }
  }

  /** Inserting keeps the order, adds exactly the key, and nothing if it was there. */
  lemma {:induction false} InsertExact(keys: seq<Key>, k: Key)
    requires Sorted(keys)
    ensures Sorted(Insert(keys, k))
    ensures forall x :: x in Insert(keys, k) <==> x == k || x in keys
    ensures |Insert(keys, k)| == |keys| + (if k in keys then 0 else 1)
    ensures TotalBytes(Insert(keys, k)) == TotalBytes(keys) + (if k in keys then 0 else |k|)
    ensures k in keys ==> Insert(keys, k) == keys
    decreases |keys|
  {
    hide Less;
    if keys == [] {
      assert Insert(keys, k) == [k];
    } else if Less(k, keys[0]) {
      SortedAbove(keys, k);
      SortedCons(k, keys);
    } else if keys[0] != k {
      var rest := keys[1..];
      assert Sorted(rest);
      InsertExact(rest, k);
      assert Less(keys[0], k) by { LessTotal(keys[0], k); }
      SortedAbove(keys, keys[0]);
      forall x | x in Insert(rest, k) ensures Less(keys[0], x) {
        if x != k { var i :| 0 <= i < |rest| && rest[i] == x; assert keys[i + 1] == x; }
      }
      SortedCons(keys[0], Insert(rest, k));
      assert keys == [keys[0]] + rest;
    }
  }

  /** The ordered set of the keys in a list. */
  function Distinct(ks: seq<Key>): seq<Key> {
    if ks == [] then [] else Insert(Distinct(ks[..|ks| - 1]), ks[|ks| - 1])
  }

  lemma {:induction false} DistinctExact(ks: seq<Key>)
    ensures Sorted(Distinct(ks))
    ensures forall x :: x in Distinct(ks) <==> x in ks
  {
    hide Insert, Less;
    if ks != [] {
      var front := ks[..|ks| - 1];
      DistinctExact(front);
      InsertExact(Distinct(front), ks[|ks| - 1]);
      assert ks == front + [ks[|ks| - 1]];
    }
  }

  /** A longer list never has fewer keys or fewer key bytes. */
  lemma {:induction false} DistinctGrows(ks: seq<Key>, n: nat)
    requires n <= |ks|
    ensures |Distinct(ks[..n])| <= |Distinct(ks)| && TotalBytes(Distinct(ks[..n])) <= TotalBytes(Distinct(ks))
    decreases |ks|
  {
    hide Insert, Less, TotalBytes;
    if n < |ks| {
      var front := ks[..|ks| - 1];
      assert front[..n] == ks[..n];
      DistinctGrows(front, n);
      DistinctExact(front);
      InsertExact(Distinct(front), ks[|ks| - 1]);
    } else {
      assert ks[..n] == ks;
    }
  }

  lemma {:induction false} DistinctNone()
    ensures Distinct([]) == []
  {
  }

  lemma {:induction false} DistinctSnoc(ks: seq<Key>, k: Key)
    ensures Distinct(ks + [k]) == Insert(Distinct(ks), k)
  {
    assert (ks + [k])[..|ks|] == ks;
  }

  /** Two ascending lists of the same keys are the same list. */
  lemma {:induction false} SortedUnique(a: seq<Key>, b: seq<Key>)
    requires Sorted(a) && Sorted(b) && (forall x :: x in a <==> x in b)
    ensures a == b
    decreases |a|
  {
    hide Less;
    assert a != [] ==> a[0] in b;
    assert b != [] ==> b[0] in a;
    if a != [] {
      assert a[0] == b[0] by { SameFirst(a, b); }
      SortedAbove(a, a[0]);
      SortedAbove(b, b[0]);
      assert a == [a[0]] + a[1..] && b == [b[0]] + b[1..];
      forall x ensures x in a[1..] <==> x in b[1..] {
        assert x in a <==> x == a[0] || x in a[1..];
        assert x in b <==> x == b[0] || x in b[1..];
      }
      SortedUnique(a[1..], b[1..]);
    }
  }

  lemma {:induction false} SameFirst(a: seq<Key>, b: seq<Key>)
    requires Sorted(a) && Sorted(b) && a != [] && b != [] && a[0] in b && b[0] in a
    ensures a[0] == b[0]
  {
    if a[0] != b[0] {
      var i :| 0 <= i < |b| && b[i] == a[0];
      var j :| 0 <= j < |a| && a[j] == b[0];
      LessTransitive(b[0], a[0], b[0]);
      LessIrreflexive(b[0]);
    }
  }

  /** `term_index_for_key`: binary search, exact on an ascending dictionary. */
  method IndexForKey(keys: seq<Key>, k: Key) returns (r: Option<nat>)
    ensures r.Some? ==> r.value < |keys| && keys[r.value] == k
    ensures Sorted(keys) && r.None? ==> k !in keys
  {
    hide Less;
    var low, high := 0, |keys|;
    while low < high
      invariant 0 <= low <= high <= |keys|
      invariant Sorted(keys) ==> forall i :: 0 <= i < low ==> keys[i] != k
      invariant Sorted(keys) ==> forall i :: high <= i < |keys| ==> keys[i] != k
    {
      var mid := low + (high - low) / 2;
      if keys[mid] == k { return Some(mid); }
      if Less(keys[mid], k) {
        if Sorted(keys) { BelowDiffers(keys, mid, k); }
        low := mid + 1;
      } else {
        LessTotal(keys[mid], k);
        if Sorted(keys) { AboveDiffers(keys, mid, k); }
        high := mid;
      }
    }
    return None;
  }

  lemma {:induction false} BelowDiffers(keys: seq<Key>, mid: nat, k: Key)
    requires Sorted(keys) && mid < |keys| && Less(keys[mid], k)
    ensures forall i :: 0 <= i <= mid ==> keys[i] != k
  {
    forall i | 0 <= i <= mid ensures keys[i] != k {
      LessIrreflexive(k);
      if i < mid && keys[i] == k { LessTransitive(k, keys[mid], k); }
    }
  }

  lemma {:induction false} AboveDiffers(keys: seq<Key>, mid: nat, k: Key)
    requires Sorted(keys) && mid < |keys| && Less(k, keys[mid])
    ensures forall i :: mid <= i < |keys| ==> keys[i] != k
  {
    forall i | mid <= i < |keys| ensures keys[i] != k {
      LessIrreflexive(k);
      if mid < i && keys[i] == k { LessTransitive(k, keys[mid], k); }
    }
  }
}
