/** The build limits as counts over the text: lines, distinct keys, their bytes, and pairs of a line and a key on it. */
module BuildTotals {
  import opened Bytes
  import opened Lines
  import opened KeySets
  import opened PostingStream
  import opened LineIndex
  import opened PostingWork

  lemma {:induction false} AddsIffNew(front: seq<Pair>, key: Key, id: U64)
    requires LinesRise(front + [(key, id)])
    ensures Adds(PostingsOf(front, key), id) <==> (key, id) !in front
  {
    hide PostingsOf;
    assert forall i, j :: 0 <= i <= j < |front| ==> (front + [(key, id)])[i] == front[i] && (front + [(key, id)])[j] == front[j];
    PostingsExact(front, key);
    var list := PostingsOf(front, key);
    forall x | x in list ensures x <= id {
      var i :| 0 <= i < |front| && front[i] == (key, x);
      assert (front + [(key, id)])[i] == (key, x) && (front + [(key, id)])[|front|] == (key, id);
    }
    if list != [] { assert list[|list| - 1] in list; }
    if id in list { LastIsLargest(list, id); }
  }

  lemma {:induction false} PostingCountSnoc(front: seq<Pair>, key: Key, id: U64)
    ensures PostingCount(front + [(key, id)]) == PostingCount(front) + if Adds(PostingsOf(front, key), id) then 1 else 0
  {
    assert (front + [(key, id)])[..|front|] == front;
  }

  lemma {:induction false} RisingFront(front: seq<Pair>, p: Pair)
    requires LinesRise(front + [p])
    ensures LinesRise(front)
  {
    var stream := front + [p];
    forall i, j | 0 <= i <= j < |front| ensures front[i].1 <= front[j].1 { assert stream[i] == front[i] && stream[j] == front[j]; }
  }

  lemma {:induction false} OneMorePair(front: seq<Pair>, p: Pair)
    ensures |set x | x in front + [p]| == |set x | x in front| + if p in front then 0 else 1
  {
    assert (set x | x in front + [p]) == (set x | x in front) + {p};
  }

  /** The posting meter counts the distinct pairs. */
  lemma {:induction false} PostingCountIs(stream: seq<Pair>)
    requires LinesRise(stream)
    ensures PostingCount(stream) == |set p | p in stream|
    decreases |stream|
  {
    if stream != [] {
      hide *;
      var front := stream[..|stream| - 1];
      var (key, id) := stream[|stream| - 1];
      assert stream == front + [(key, id)];
      RisingFront(front, (key, id));
      PostingCountIs(front);
      AddsIffNew(front, key, id);
      PostingCountSnoc(front, key, id);
      OneMorePair(front, (key, id));
    }
  }

  /** Line `i` of the text has the key. */
  ghost predicate HasKey(t: seq<Byte>, mode: BuildKeys, i: nat, k: Key)
    requires SpansIn(t, LinesFrom(t, 0))
  {
    i < |LinesFrom(t, 0)| && k in LineKeys(mode, LineBytes(t, LinesFrom(t, 0)[i]))
  }

  /**
   * Whether a text can be indexed, from the text: few and short enough lines, and few enough distinct
   * keys, bytes in them, and pairs of a line and a key on it.
   */
  lemma {:induction false} BuildableIs(t: seq<Byte>, mode: BuildKeys, maxLine: nat, limits: BuildLimits, keys: seq<Key>, pairs: set<Pair>)
    requires SpansIn(t, LinesFrom(t, 0)) && Sorted(keys)
    requires forall k :: k in keys <==> exists i: nat :: HasKey(t, mode, i, k)
    requires forall k, i: U64 :: (k, i) in pairs <==> HasKey(t, mode, i, k)
    ensures Buildable(t, mode, maxLine, limits) <==>
              && |LinesFrom(t, 0)| <= limits.maxGranules
              && (forall i :: 0 <= i < |LinesFrom(t, 0)| ==> LinesFrom(t, 0)[i].1 - LinesFrom(t, 0)[i].0 <= maxLine)
              && |keys| <= limits.maxKeys && TotalBytes(keys) <= limits.maxKeyBytes && |pairs| <= limits.maxPostings
  {
    hide LinesFrom, LineKeys, Stream, Dictionary, PostingCount, Less, TotalBytes;
    var ls := LinesFrom(t, 0);
    var stream := Stream(mode, t, ls);
    StreamExact(mode, t, ls);
    PostingCountIs(stream);
    assert (set p | p in stream) == pairs by { SamePairs(t, mode, stream, pairs); }
    SameKeys(t, mode, stream, keys);
  }

  lemma {:induction false} SamePairs(t: seq<Byte>, mode: BuildKeys, stream: seq<Pair>, pairs: set<Pair>)
    requires SpansIn(t, LinesFrom(t, 0))
    requires forall k, id: U64 :: (k, id) in stream <==> HasKey(t, mode, id, k)
    requires forall k, i: U64 :: (k, i) in pairs <==> HasKey(t, mode, i, k)
    ensures (set p | p in stream) == pairs
  {
    hide HasKey;
    forall p: Pair ensures p in stream <==> p in pairs { assert p == (p.0, p.1); }
  }

  lemma {:induction false} SameKeys(t: seq<Byte>, mode: BuildKeys, stream: seq<Pair>, keys: seq<Key>)
    requires SpansIn(t, LinesFrom(t, 0)) && Sorted(keys)
    requires forall k, id: U64 :: (k, id) in stream <==> HasKey(t, mode, id, k)
    requires forall p :: p in stream ==> p.1 < |LinesFrom(t, 0)|
    requires forall k :: k in keys <==> exists i: nat :: HasKey(t, mode, i, k)
    ensures Dictionary(stream) == keys
  {
    hide Dictionary, Sorted, LinesFrom, LineKeys;
    DictionaryExact(stream, []);
    forall k ensures k in Dictionary(stream) <==> k in keys {
      DictionaryExact(stream, k);
      if k in Dictionary(stream) {
        var i :| 0 <= i < |stream| && stream[i].0 == k;
        assert (k, stream[i].1) in stream;
      }
      if k in keys {
        var id: nat :| HasKey(t, mode, id, k);
        assert id <= U64_MAX && (k, id) in stream;
        var i :| 0 <= i < |stream| && stream[i] == (k, id);
      }
    }
    SameSorted(Dictionary(stream), keys);
  }

  /** An ordered set has one listing. */
  lemma {:induction false} SameSorted(a: seq<Key>, b: seq<Key>)
    requires Sorted(a) && Sorted(b) && forall k :: k in a <==> k in b
    ensures a == b
    decreases |a|
  {
    hide Sorted;
    assert b == [] || b[0] in b;
    if a != [] {
      assert a[0] in a && a[0] in b;
      SameLast(a, b);
      var front, rest, last := a[..|a| - 1], b[..|b| - 1], a[|a| - 1];
      assert a == front + [last] && b == rest + [last];
      SameFront(a, b, front, rest, last);
      SameFront(b, a, rest, front, last);
      FrontSorted(a);
      FrontSorted(b);
      SameSorted(front, rest);
    }
  }

  lemma {:induction false} FrontSorted(keys: seq<Key>)
    requires Sorted(keys) && keys != []
    ensures Sorted(keys[..|keys| - 1])
  {
    hide Less;
  }

  lemma {:induction false} LargestOf(keys: seq<Key>, k: Key)
    requires Sorted(keys) && k in keys
    ensures k == keys[|keys| - 1] || Less(k, keys[|keys| - 1])
  {
    hide Less;
  }

  lemma {:induction false} SameLast(a: seq<Key>, b: seq<Key>)
    requires Sorted(a) && Sorted(b) && a != [] && b != [] && forall k :: k in a <==> k in b
    ensures a[|a| - 1] == b[|b| - 1]
  {
    hide Sorted, Less;
    var x, y := a[|a| - 1], b[|b| - 1];
    assert x in a && y in b;
    LargestOf(a, y);
    LargestOf(b, x);
    if Less(x, y) && Less(y, x) { LessTransitive(x, y, x); LessIrreflexive(x); }
  }

  /** Without its last key, the first listing holds only keys of the other one without its last. */
  lemma {:induction false} SameFront(a: seq<Key>, b: seq<Key>, front: seq<Key>, rest: seq<Key>, last: Key)
    requires Sorted(a) && a == front + [last] && b == rest + [last] && forall k :: k in a <==> k in b
    ensures forall k :: k in front ==> k in rest
  {
    hide Sorted;
    forall k | k in front ensures k in rest {
      assert k in a && k in b;
      NotLast(front, last, k);
    }
  }

  lemma {:induction false} NotLast(front: seq<Key>, last: Key, k: Key)
    requires Sorted(front + [last]) && k in front
    ensures k != last
  {
    hide Less;
    var i :| 0 <= i < |front| && front[i] == k;
    var keys := front + [last];
    assert Less(keys[i], keys[|front|]);
    LessIrreflexive(k);
  }
}
