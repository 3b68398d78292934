/** The bytes of an encoding by number and position, as section 3 of RFC 8949 lays them out. */
module CborLayout {
  import opened Bytes
  import opened Digits
  import opened Cbor
  import opened CborCanon

  // ----- arguments, most significant byte first -----

  /** Byte `i` of a big-endian argument. */
  lemma {:induction false} BigEndianAt(v: nat, width: nat, i: nat)
    requires i < width
    ensures BigEndian(v, width)[i] == Digit(v, 256, width - 1 - i)
  {
    hide Digit;
    if i < width - 1 {
      BigEndianAt(v / 256, width - 1, i);
      HigherDigit(v, 256, width - 2 - i);
    } else {
      HigherDigit(v, 256, 0);
    }
  }

  /** The major type and the argument in its shortest form: a value up to 23 inside the initial byte, a larger one after it. */
  predicate IsHead(s: seq<Byte>, major: nat, value: nat) {
    var width := if value <= 23 then 0 else if value <= 0xff then 1 else if value <= 0xffff then 2 else if value <= 0xffff_ffff then 4 else 8;
    && |s| == 1 + width
    && s[0] == 32 * major + (if width == 0 then value else if width == 1 then 24 else if width == 2 then 25 else if width == 4 then 26 else 27)
    && forall i :: 1 <= i <= width ==> s[i] == Digit(value, 256, width - i)
  }

  /** The one head of a value. */
  lemma {:induction false} HeadLayout(major: nat, value: U64, s: seq<Byte>)
    requires major < 8
    ensures s == Head(major, value) <==> IsHead(s, major, value)
  {
    hide BigEndian, Digit;
    var width := ArgumentWidth(value);
    var tail, head := BigEndian(value, width), Head(major, value);
    forall i | 1 <= i <= width ensures head[i] == Digit(value, 256, width - i) { BigEndianAt(value, width, i - 1); }
    if IsHead(s, major, value) {
      assert |s| == |head| && forall i :: 0 <= i < |s| ==> s[i] == head[i];
    }
  }

  // ----- values -----

  /** `s` is a head followed by `body`. */
  ghost predicate Headed(s: seq<Byte>, major: nat, value: nat, body: seq<Byte>) {
    |body| <= |s| && IsHead(s[..|s| - |body|], major, value) && s[|s| - |body|..] == body
  }

  lemma {:induction false} HeadedIs(major: nat, value: U64, body: seq<Byte>)
    requires major < 8
    ensures Headed(Head(major, value) + body, major, value, body)
  {
    hide IsHead, Head;
    HeadLayout(major, value, Head(major, value));
    var s := Head(major, value) + body;
    assert s[..|s| - |body|] == Head(major, value) && s[|s| - |body|..] == body;
  }

  /** The encodings of the items, in order. */
  ghost predicate Listed(items: seq<Value>, body: seq<Byte>) {
    if items == [] then body == []
    else
      exists n :: 0 <= n <= |body| && Encode(items[0]) == Ok(body[..n]) && Listed(items[1..], body[n..])
  }

  /** Each key's encoding followed by its value's, in order. */
  ghost predicate ListedEntries(entries: seq<Entry>, body: seq<Byte>) {
    if entries == [] then body == []
    else
      exists n, m :: 0 <= n <= m <= |body| && Encode(entries[0].key) == Ok(body[..n]) && Encode(entries[0].value) == Ok(body[n..m])
                     && ListedEntries(entries[1..], body[m..])
  }

  /** The same entries with encoded keys strictly ascending. */
  ghost predicate InKeyOrder(entries: seq<Entry>, sorted: seq<Entry>) {
    && multiset(sorted) == multiset(entries)
    && (forall i :: 0 <= i < |sorted| ==> Encode(sorted[i].key).Ok?)
    && forall i :: 0 < i < |sorted| ==> Less(Encode(sorted[i - 1].key).value, Encode(sorted[i].key).value)
  }

  lemma {:induction false} PairsListed(entries: seq<Entry>)
    requires EncodeEntries(entries).Ok?
    ensures ListedEntries(entries, Flatten(EncodeEntries(entries).value))
    decreases |entries|
  {
    hide Encode;
    if entries != [] {
      var pairs := EncodeEntries(entries).value;
      var key, value, rest := pairs[0].0, pairs[0].1, Flatten(pairs[1..]);
      assert pairs[1..] == EncodeEntries(entries[1..]).value;
      PairsListed(entries[1..]);
      var body, m := key + value + rest, |key| + |value|;
      assert body[..|key|] == key && body[|key|..m] == value && body[m..] == rest;
    }
  }

  lemma {:induction false} InsertKeepsEntries(e: Entry, sorted: seq<Entry>)
    requires Encode(e.key).Ok? && forall i :: 0 <= i < |sorted| ==> Encode(sorted[i].key).Ok?
    ensures multiset(InsertEntry(e, sorted)) == multiset{e} + multiset(sorted)
    decreases |sorted|
  {
    hide Encode, Less;
    if sorted != [] {
      assert sorted == [sorted[0]] + sorted[1..];
      InsertKeepsEntries(e, sorted[1..]);
    }
  }

  lemma {:induction false} SortKeepsEntries(entries: seq<Entry>)
    requires forall i :: 0 <= i < |entries| ==> Encode(entries[i].key).Ok?
    ensures multiset(SortEntries(entries)) == multiset(entries)
    decreases |entries|
  {
    hide Encode, InsertEntry;
    if entries != [] {
      assert entries == [entries[0]] + entries[1..];
      SortKeepsEntries(entries[1..]);
      InsertKeepsEntries(entries[0], SortEntries(entries[1..]));
    }
  }

  lemma {:induction false} AscendingAt(pairs: seq<Pair>, i: nat)
    requires Ascending(pairs) && 0 < i < |pairs|
    ensures Less(pairs[i - 1].0, pairs[i].0)
    decreases |pairs|
  {
    hide Less;
    if i > 1 { AscendingAt(pairs[1..], i - 1); }
  }

  lemma {:induction false} EntriesListed(entries: seq<Entry>)
    requires EncodeEntries(entries).Ok? && NoAdjacentDuplicate(Sort(EncodeEntries(entries).value))
    ensures exists sorted :: InKeyOrder(entries, sorted) && ListedEntries(sorted, Flatten(Sort(EncodeEntries(entries).value)))
  {
    hide Encode, Less, Ascending, Sort, SortEntries, EncodeEntries, Flatten, NoAdjacentDuplicate, ListedEntries;
    EncodedKeys(entries);
    SortCommutes(entries);
    SortKeepsEntries(entries);
    var sorted, pairs := SortEntries(entries), Sort(EncodeEntries(entries).value);
    SortSorted(EncodeEntries(entries).value);
    SortedDistinctAscending(pairs);
    EncodedKeys(sorted);
    PairsListed(sorted);
    forall i | 0 < i < |sorted| ensures Less(Encode(sorted[i - 1].key).value, Encode(sorted[i].key).value) {
      AscendingAt(pairs, i);
      assert EncodeEntry(sorted[i - 1]) == Ok(pairs[i - 1]) && EncodeEntry(sorted[i]) == Ok(pairs[i]);
    }
    assert InKeyOrder(entries, sorted);
  }

  /** Major types 0 to 5 by constructor, and the three simple values. */
  lemma {:induction false} EncodingLayout(v: Value)
    requires Encode(v).Ok?
    ensures var s := Encode(v).value;
            match v
            case Integer(n) => if n >= 0 then IsHead(s, 0, n) else IsHead(s, 1, -1 - n)
            case ByteString(bytes) => Headed(s, 2, |bytes|, bytes)
            case Text(bytes) => Headed(s, 3, |bytes|, bytes)
            case Array(items) => exists body :: Headed(s, 4, |items|, body) && Listed(items, body)
            case Map(entries) => exists body, sorted :: Headed(s, 5, |entries|, body) && InKeyOrder(entries, sorted) && ListedEntries(sorted, body)
            case Bool(b) => s == [if b then 0xf5 else 0xf4]
            case Null => s == [0xf6]
  {
    hide Head, IsHead, Headed, Listed, ListedEntries, InKeyOrder;
    match v
    case Integer(n) =>
      if n >= 0 { HeadLayout(0, n, Head(0, n)); } else { HeadLayout(1, -1 - n, Head(1, -1 - n)); }
    case ByteString(bytes) => HeadedIs(2, |bytes|, bytes);
    case Text(bytes) => HeadedIs(3, |bytes|, bytes);
    case Array(items) =>
      HeadedIs(4, |items|, EncodeItems(items).value);
      ItemsListed(items);
    case Map(entries) =>
      HeadedIs(5, |entries|, Flatten(Sort(EncodeEntries(entries).value)));
      EntriesListed(entries);
    case _ =>
  }

  lemma {:induction false} ItemsListed(items: seq<Value>)
    requires EncodeItems(items).Ok?
    ensures Listed(items, EncodeItems(items).value)
  {
    if items != [] {
      var first, rest := Encode(items[0]).value, EncodeItems(items[1..]).value;
      ItemsListed(items[1..]);
      var body := first + rest;
      assert body[..|first|] == first && body[|first|..] == rest;
    }
  }

  // ----- nesting -----

  /** At most `d` arrays and maps lie around any value inside. */
  predicate NestedWithin(v: Value, d: nat)
    decreases v
  {
    match v
    case Array(items) => forall i :: 0 <= i < |items| ==> d > 0 && NestedWithin(items[i], d - 1)
    case Map(entries) => forall i :: 0 <= i < |entries| ==> d > 0 && NestedWithin(entries[i].key, d - 1) && NestedWithin(entries[i].value, d - 1)
    case _ => true
  }

  lemma {:induction false} DepthIs(v: Value, d: nat)
    ensures Depth(v) <= d <==> NestedWithin(v, d)
    decreases v, 0
  {
    match v
    case Array(items) => DepthItemsIs(items, d);
    case Map(entries) => DepthEntriesIs(entries, d);
    case _ =>
  }

  lemma {:induction false} DepthItemsIs(items: seq<Value>, d: nat)
    ensures DepthItems(items) <= d <==> forall i :: 0 <= i < |items| ==> d > 0 && NestedWithin(items[i], d - 1)
    decreases items, |items|
  {
    hide NestedWithin, Depth;
    if items != [] {
      if d > 0 { DepthIs(items[0], d - 1); }
      DepthItemsIs(items[1..], d);
      assert forall i :: 0 < i < |items| ==> items[i] == items[1..][i - 1];
    }
  }

  lemma {:induction false} DepthEntriesIs(entries: seq<Entry>, d: nat)
    ensures DepthEntries(entries) <= d <==>
              forall i :: 0 <= i < |entries| ==> d > 0 && NestedWithin(entries[i].key, d - 1) && NestedWithin(entries[i].value, d - 1)
    decreases entries, |entries|
  {
    hide NestedWithin, Depth;
    if entries != [] {
      if d > 0 { DepthEntryIs(entries[0], d - 1); }
      DepthEntriesIs(entries[1..], d);
      assert forall i :: 0 < i < |entries| ==> entries[i] == entries[1..][i - 1];
    }
  }

  lemma {:induction false} DepthEntryIs(e: Entry, d: nat)
    ensures DepthEntry(e) <= d <==> NestedWithin(e.key, d) && NestedWithin(e.value, d)
    decreases e, 0
  {
    hide NestedWithin, Depth;
    DepthIs(e.key, d);
    DepthIs(e.value, d);
  }
}
