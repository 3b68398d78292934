/**
 * Posting lists as a function of the stream of (key, line) pairs met while
 * scanning a text, and the metered map that accumulates them.
 */
module PostingStream {
  import opened Bytes
  import opened KeySets
  import opened Tokens
  import opened Delta

  type Pair = (Key, U64)

  function KeysOf(stream: seq<Pair>): (ks: seq<Key>)
    ensures |ks| == |stream|
  {
    seq(|stream|, i requires 0 <= i < |stream| => stream[i].0)
  }

  /** The sorted dictionary of the stream. */
  function Dictionary(stream: seq<Pair>): seq<Key> { Distinct(KeysOf(stream)) }

  predicate Adds(list: seq<U64>, id: U64) { list == [] || list[|list| - 1] != id }

  /** The posting list of a key: its line ids, a repeated last id dropped. */
  function PostingsOf(stream: seq<Pair>, k: Key): seq<U64> {
    if stream == [] then []
    else
      var (key, id) := stream[|stream| - 1];
      var before := PostingsOf(stream[..|stream| - 1], k);
      if key == k && Adds(before, id) then before + [id] else before
  }

  /** Number of ids in all posting lists. */
  function PostingCount(stream: seq<Pair>): nat {
    if stream == [] then 0
    else
      var (key, id) := stream[|stream| - 1];
      var front := stream[..|stream| - 1];
      PostingCount(front) + if Adds(PostingsOf(front, key), id) then 1 else 0
  }

  lemma {:induction false} StreamSnoc(stream: seq<Pair>, key: Key, id: U64)
    ensures Dictionary(stream + [(key, id)]) == Insert(Dictionary(stream), key)
    ensures forall k :: PostingsOf(stream + [(key, id)], k)
                        == (if key == k && Adds(PostingsOf(stream, k), id) then PostingsOf(stream, k) + [id] else PostingsOf(stream, k))
    ensures PostingCount(stream + [(key, id)]) == PostingCount(stream) + (if Adds(PostingsOf(stream, key), id) then 1 else 0)
  {
    var all := stream + [(key, id)];
    assert all[..|stream|] == stream && all[|stream|] == (key, id);
    assert KeysOf(all) == KeysOf(stream) + [key];
    DistinctSnoc(KeysOf(stream), key);
  }

  /** Line ids never go back. */
  predicate LinesRise(stream: seq<Pair>) { forall i, j :: 0 <= i <= j < |stream| ==> stream[i].1 <= stream[j].1 }

  /** On a rising stream a list holds exactly the lines where its key occurs, strictly increasing. */
  lemma {:induction false} PostingsExact(stream: seq<Pair>, k: Key)
    requires LinesRise(stream)
    ensures Increasing(PostingsOf(stream, k))
    ensures forall id :: id in PostingsOf(stream, k) <==> (k, id) in stream
    decreases |stream|
  {
    if stream != [] {
      var front, last := stream[..|stream| - 1], stream[|stream| - 1];
      PostingsExact(front, k);
      var before := PostingsOf(front, k);
      assert stream == front + [last];
      forall id | id in before ensures id <= last.1 {
        var i :| 0 <= i < |front| && front[i] == (k, id);
        assert stream[i].1 <= stream[|stream| - 1].1;
      }
      if last.0 == k { SnocIncreasing(before, last.1); }
    }
  }

  lemma {:induction false} SnocIncreasing(list: seq<U64>, id: U64)
    requires Increasing(list) && forall x :: x in list ==> x <= id
    ensures Adds(list, id) ==> Increasing(list + [id]) && id !in list
    ensures !Adds(list, id) ==> id in list
  {
    if Adds(list, id) {
      forall i | 0 <= i < |list| ensures list[i] < id {
        assert list[i] in list && list[|list| - 1] in list;
        if i < |list| - 1 { assert list[i] < list[|list| - 1]; }
      }
    }
  }

  /** Dictionary keys are the keys with a nonempty list. */
  lemma {:induction false} DictionaryExact(stream: seq<Pair>, k: Key)
    ensures Sorted(Dictionary(stream))
    ensures k in Dictionary(stream) <==> exists i :: 0 <= i < |stream| && stream[i].0 == k
  {
    hide Distinct, Sorted;
    DistinctExact(KeysOf(stream));
    if k in KeysOf(stream) { var i :| 0 <= i < |stream| && KeysOf(stream)[i] == k; assert stream[i].0 == k; }
    if i :| 0 <= i < |stream| && stream[i].0 == k { assert KeysOf(stream)[i] == k; }
  }

  lemma {:induction false} ListedIffMet(stream: seq<Pair>, k: Key)
    ensures PostingsOf(stream, k) != [] <==> k in KeysOf(stream)
    decreases |stream|
  {
    if stream != [] {
      var front := stream[..|stream| - 1];
      ListedIffMet(front, k);
      assert stream == front + [stream[|stream| - 1]];
      assert KeysOf(stream) == KeysOf(front) + [stream[|stream| - 1].0];
    }
  }

  // ----- totals only grow -----

  datatype BuildLimits = BuildLimits(maxGranules: U64, maxKeys: U64, maxPostings: U64, maxKeyBytes: U64)

  /** The stream's dictionary and postings are within the build limits. */
  predicate WithinBuild(limits: BuildLimits, stream: seq<Pair>) {
    && |Dictionary(stream)| <= limits.maxKeys
    && TotalBytes(Dictionary(stream)) <= limits.maxKeyBytes
    && PostingCount(stream) <= limits.maxPostings
  }

  lemma {:induction false} CountGrows(stream: seq<Pair>, n: nat)
    requires n <= |stream|
    ensures PostingCount(stream[..n]) <= PostingCount(stream)
    decreases |stream|
  {
    if n < |stream| {
      var front := stream[..|stream| - 1];
      assert front[..n] == stream[..n];
      CountGrows(front, n);
    } else {
      assert stream[..n] == stream;
    }
  }

  /** A stream over a limit stays over it however it continues. */
  lemma {:induction false} WithinShrinks(limits: BuildLimits, a: seq<Pair>, b: seq<Pair>)
    requires WithinBuild(limits, a + b)
    ensures WithinBuild(limits, a)
  {
    hide Distinct, PostingCount, TotalBytes;
    var all := a + b;
    assert all[..|a|] == a;
    CountGrows(all, |a|);
    assert KeysOf(all)[..|a|] == KeysOf(a);
    DistinctGrows(KeysOf(all), |a|);
  }

  lemma {:induction false} KeyWithinTotal(keys: seq<Key>, k: Key)
    requires k in keys
    ensures |k| <= TotalBytes(keys)
  {
    if keys[0] != k { KeyWithinTotal(keys[1..], k); }
  }

  // ----- conservation: the meter against the map -----

  /** Ids in the lists of the given keys. */
  function ListedIds(keys: seq<Key>, stream: seq<Pair>): nat {
    if keys == [] then 0 else |PostingsOf(stream, keys[0])| + ListedIds(keys[1..], stream)
  }

  lemma {:induction false} InsertListed(keys: seq<Key>, k: Key, stream: seq<Pair>)
    requires Sorted(keys)
    ensures ListedIds(Insert(keys, k), stream) == ListedIds(keys, stream) + (if k in keys then 0 else |PostingsOf(stream, k)|)
    decreases |keys|
  {
    hide PostingsOf, Less;
    if keys == [] {
    } else if Less(k, keys[0]) {
      SortedAbove(keys, k);
      assert ([k] + keys)[1..] == keys;
    } else if keys[0] != k {
      InsertListed(keys[1..], k, stream);
      assert keys == [keys[0]] + keys[1..];
      var rest := Insert(keys[1..], k);
      assert ([keys[0]] + rest)[1..] == rest;
    }
  }

  lemma {:induction false} SnocListed(keys: seq<Key>, stream: seq<Pair>, key: Key, id: U64)
    requires Sorted(keys)
    ensures ListedIds(keys, stream + [(key, id)])
            == ListedIds(keys, stream) + (if key in keys && Adds(PostingsOf(stream, key), id) then 1 else 0)
    decreases |keys|
  {
    hide PostingsOf, Less;
    if keys != [] {
      StreamSnoc(stream, key, id);
      SnocListed(keys[1..], stream, key, id);
      SortedAbove(keys, keys[0]);
      assert keys == [keys[0]] + keys[1..];
    }
  }

  /** The posting meter is the number of ids stored in the map. */
  lemma {:induction false} MeterConserved(stream: seq<Pair>)
    ensures PostingCount(stream) == ListedIds(Dictionary(stream), stream)
    decreases |stream|
  {
    if stream != [] {
      hide PostingsOf, PostingCount, ListedIds, Insert, Less, Adds, Dictionary;
      var front := stream[..|stream| - 1];
      var (key, id) := stream[|stream| - 1];
      assert stream == front + [(key, id)];
      MeterConserved(front);
      StreamSnoc(front, key, id);
      DictionaryExact(front, key);
      var dict := Dictionary(front);
      InsertListed(dict, key, stream);
      SnocListed(dict, front, key, id);
      if key !in dict { NewKeyListed(front, key, id); }
    }
  }

  lemma {:induction false} NewKeyListed(front: seq<Pair>, key: Key, id: U64)
    requires key !in Dictionary(front)
    ensures PostingsOf(front, key) == [] && Adds(PostingsOf(front, key), id)
    ensures |PostingsOf(front + [(key, id)], key)| == 1
  {
    hide Insert, Less;
    DistinctExact(KeysOf(front));
    ListedIffMet(front, key);
    StreamSnoc(front, key, id);
  }

  // ----- the metered map -----

  /** `charge_build` */
  function Charged(value: U64, amount: nat, limit: U64): Result<U64> {
    if value + amount > limit then Err else Ok(value + amount)
  }

  /** The posting map with its build meter. */
  class BuildMeter {
    const limits: BuildLimits
    var keys: U64
    var keyBytes: U64
    var postings: U64
    var dictionary: seq<Key>
    var lists: map<Key, seq<U64>>
    ghost var stream: seq<Pair>

    constructor (limits: BuildLimits)
      ensures Valid() && stream == [] && this.limits == limits
    {
      this.limits := limits;
      keys, keyBytes, postings, dictionary, lists, stream := 0, 0, 0, [], map[], [];
    }

    /** Counters, dictionary and lists are those of the stream, and within the limits. */
    ghost predicate Valid()
      reads this
    {
      && dictionary == Dictionary(stream)
      && (forall k :: k in lists <==> k in dictionary)
      && (forall k :: k in lists ==> lists[k] == PostingsOf(stream, k))
      && keys == |dictionary| && keyBytes == TotalBytes(dictionary) && postings == PostingCount(stream)
      && WithinBuild(limits, stream)
    }

    method AddKey(raw: Key, fold: bool, granule: U64) returns (ok: bool)
      requires Valid()
      modifies this
      ensures var key := if fold then Folded(raw) else raw;
              && ok == WithinBuild(limits, old(stream) + [(key, granule)])
              && (ok ==> Valid() && stream == old(stream) + [(key, granule)])
    {
      hide PostingsOf, PostingCount, Dictionary, Insert, Less, TotalBytes, Adds;
      var key := if fold then Folded(raw) else raw;
      assert |key| == |raw|;
      if |raw| > limits.maxKeyBytes { KeyTooLong(limits, stream, key, granule); return false; }
      if key in lists {
        ok := ExtendList(key, granule);
      } else {
        ok := NewList(key, granule);
      }
    }

    /** The key is in the map: its list grows unless it already ends with this line. */
    method ExtendList(key: Key, granule: U64) returns (ok: bool)
      requires Valid() && key in lists
      modifies this
      ensures ok == WithinBuild(limits, old(stream) + [(key, granule)])
      ensures ok ==> Valid() && stream == old(stream) + [(key, granule)]
    {
      hide PostingsOf, PostingCount, Dictionary, Insert, Less, TotalBytes, Adds;
      StreamSnoc(stream, key, granule);
      DictionaryExact(stream, key);
      InsertExact(dictionary, key);
      if Adds(lists[key], granule) {
        var p := Charged(postings, 1, limits.maxPostings);
        if p.Err? { return false; }
        postings := p.value;
        lists := lists[key := lists[key] + [granule]];
      }
      stream := stream + [(key, granule)];
      return true;
    }

    method NewList(key: Key, granule: U64) returns (ok: bool)
      requires Valid() && key !in lists
      modifies this
      ensures ok == WithinBuild(limits, old(stream) + [(key, granule)])
      ensures ok ==> Valid() && stream == old(stream) + [(key, granule)]
    {
      hide PostingsOf, PostingCount, Dictionary, Insert, Less, TotalBytes, Adds;
      StreamSnoc(stream, key, granule);
      DictionaryExact(stream, key);
      InsertExact(dictionary, key);
      NewKeyListed(stream, key, granule);
      var k := Charged(keys, 1, limits.maxKeys);
      if k.Err? { return false; }
      var b := Charged(keyBytes, |key|, limits.maxKeyBytes);
      if b.Err? { return false; }
      var p := Charged(postings, 1, limits.maxPostings);
      if p.Err? { return false; }
      keys, keyBytes, postings := k.value, b.value, p.value;
      lists := lists[key := [granule]];
      dictionary := Insert(dictionary, key);
      stream := stream + [(key, granule)];
      return true;
    }
  }

  lemma {:induction false} KeyTooLong(limits: BuildLimits, stream: seq<Pair>, key: Key, granule: U64)
    requires |key| > limits.maxKeyBytes
    ensures !WithinBuild(limits, stream + [(key, granule)])
  {
    hide PostingsOf, PostingCount, Dictionary, Insert, Less, TotalBytes;
    StreamSnoc(stream, key, granule);
    DictionaryExact(stream, key);
    InsertExact(Dictionary(stream), key);
    KeyWithinTotal(Dictionary(stream + [(key, granule)]), key);
  }
}
