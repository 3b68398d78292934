/** Facts about the encoder alone: predicted length, and invariance under canonical ordering. */
module CborCanon {
  import opened Bytes
  import opened Cbor

  // ----- measured length is the encoded length -----

  lemma {:induction false} FlattenInsert(p: Pair, pairs: seq<Pair>)
    ensures |Flatten(Insert(p, pairs))| == |p.0| + |p.1| + |Flatten(pairs)|
    decreases |pairs|
  {
    if pairs == [] || !Less(pairs[0].0, p.0) {
      assert ([p] + pairs)[1..] == pairs;
    } else {
      FlattenInsert(p, pairs[1..]);
      assert Insert(p, pairs)[1..] == Insert(p, pairs[1..]);
    }
  }

  lemma {:induction false} FlattenSort(pairs: seq<Pair>)
    ensures |Flatten(Sort(pairs))| == |Flatten(pairs)| && |Sort(pairs)| == |pairs|
    decreases |pairs|
  {
    if pairs != [] {
      FlattenSort(pairs[1..]);
      FlattenInsert(pairs[0], Sort(pairs[1..]));
      InsertLength(pairs[0], Sort(pairs[1..]));
    }
  }

  lemma {:induction false} InsertLength(p: Pair, pairs: seq<Pair>)
    ensures |Insert(p, pairs)| == |pairs| + 1
    decreases |pairs|
  {
    if pairs != [] && Less(pairs[0].0, p.0) { InsertLength(p, pairs[1..]); }
  }

  /** Whatever encodes is measurable, and its measured size is its encoded size. */
  lemma {:induction false} EncodeLength(v: Value)
    requires Encode(v).Ok?
    ensures Measurable(v) && |Encode(v).value| == Measure(v).encoded
    decreases v
  {
    match v
    case Array(items) => EncodeItemsLength(items);
    case Map(entries) =>
      EncodeEntriesLength(entries);
      FlattenSort(EncodeEntries(entries).value);
    case _ =>
  }

  lemma {:induction false} EncodeItemsLength(items: seq<Value>)
    requires EncodeItems(items).Ok?
    ensures forall i :: 0 <= i < |items| ==> Measurable(items[i])
    ensures |EncodeItems(items).value| == MeasureItems(items).encoded
    decreases items
  {
    if items != [] {
      EncodeLength(items[0]);
      EncodeItemsLength(items[1..]);
      forall i | 0 <= i < |items| ensures Measurable(items[i]) {
        if i > 0 { assert items[i] == items[1..][i - 1]; }
      }
    }
  }

  lemma {:induction false} EncodeEntryLength(e: Entry)
    requires EncodeEntry(e).Ok?
    ensures Measurable(e.key) && Measurable(e.value)
    ensures var (k, w) := EncodeEntry(e).value; |k| == Measure(e.key).encoded && |k| + |w| == MeasureEntry(e).encoded
    decreases e
  {
    EncodeLength(e.key);
    EncodeLength(e.value);
  }

  lemma {:induction false} EncodeEntriesLength(entries: seq<Entry>)
    requires EncodeEntries(entries).Ok?
    ensures forall i :: 0 <= i < |entries| ==> Measurable(entries[i].key) && Measurable(entries[i].value)
    ensures |Flatten(EncodeEntries(entries).value)| == MeasureEntries(entries).encoded
    decreases entries
  {
    if entries != [] {
      EncodeEntryLength(entries[0]);
      EncodeEntriesLength(entries[1..]);
      var pairs := EncodeEntries(entries).value;
      assert pairs[1..] == EncodeEntries(entries[1..]).value;
      forall i | 0 <= i < |entries| ensures Measurable(entries[i].key) && Measurable(entries[i].value) {
        if i > 0 { assert entries[i] == entries[1..][i - 1]; }
      }
    }
  }

  // ----- sorting entries and sorting their encodings commute -----

  ghost predicate KeysEncode(entries: seq<Entry>) {
    forall i :: 0 <= i < |entries| ==> Encode(entries[i].key).Ok?
  }

  lemma {:induction false} EncodedKeys(entries: seq<Entry>)
    requires EncodeEntries(entries).Ok?
    ensures KeysEncode(entries)
    ensures forall i :: 0 <= i < |entries| ==> EncodeEntry(entries[i]) == Ok(EncodeEntries(entries).value[i])
    decreases |entries|
  {
    if entries != [] {
      EncodedKeys(entries[1..]);
      forall i | 0 <= i < |entries|
        ensures Encode(entries[i].key).Ok? && EncodeEntry(entries[i]) == Ok(EncodeEntries(entries).value[i])
      {
        if i > 0 { assert entries[i] == entries[1..][i - 1]; }
      }
    }
  }

  lemma {:induction false} InsertCommutes(e: Entry, sorted: seq<Entry>)
    requires EncodeEntry(e).Ok? && EncodeEntries(sorted).Ok? && KeysEncode(sorted)
    ensures EncodeEntries(InsertEntry(e, sorted)) == Ok(Insert(EncodeEntry(e).value, EncodeEntries(sorted).value))
    decreases |sorted|
  {
    hide Encode;
    hide Less;
    if sorted == [] {
      assert [e][1..] == [];
      assert EncodeEntries([e][1..]) == Ok([]);
    } else if !Less(Encode(sorted[0].key).value, Encode(e.key).value) {
      assert ([e] + sorted)[1..] == sorted;
    } else {
      var rest := InsertEntry(e, sorted[1..]);
      InsertCommutes(e, sorted[1..]);
      assert ([sorted[0]] + rest)[1..] == rest;
      assert EncodeEntries(sorted).value[1..] == EncodeEntries(sorted[1..]).value;
    }
  }

  lemma {:induction false} SortCommutes(entries: seq<Entry>)
    requires EncodeEntries(entries).Ok? && KeysEncode(entries)
    ensures EncodeEntries(SortEntries(entries)) == Ok(Sort(EncodeEntries(entries).value))
    ensures KeysEncode(SortEntries(entries))
    decreases |entries|
  {
    hide Encode;
    if entries != [] {
      SortCommutes(entries[1..]);
      var sorted := SortEntries(entries[1..]);
      InsertCommutes(entries[0], sorted);
      EncodedKeys(SortEntries(entries));
      assert EncodeEntries(entries).value[1..] == EncodeEntries(entries[1..]).value;
    }
  }

  // ----- sorted without duplicates is strictly ascending -----

  /** No later key is below an earlier neighbour. */
  predicate Sorted(pairs: seq<Pair>) {
    |pairs| >= 2 ==> !Less(pairs[1].0, pairs[0].0) && Sorted(pairs[1..])
  }

  lemma {:induction false} InsertSorted(p: Pair, pairs: seq<Pair>)
    requires Sorted(pairs)
    ensures Sorted(Insert(p, pairs))
    decreases |pairs|
  {
    if pairs == [] || !Less(pairs[0].0, p.0) {
      assert ([p] + pairs)[1..] == pairs;
    } else {
      InsertSorted(p, pairs[1..]);
      var rest := Insert(p, pairs[1..]);
      assert Insert(p, pairs)[1..] == rest;
      LessAsymmetric(pairs[0].0, p.0);
    }
  }

  lemma {:induction false} SortSorted(pairs: seq<Pair>)
    ensures Sorted(Sort(pairs))
    decreases |pairs|
  {
    if pairs != [] {
      SortSorted(pairs[1..]);
      InsertSorted(pairs[0], Sort(pairs[1..]));
    }
  }

  lemma {:induction false} SortedDistinctAscending(pairs: seq<Pair>)
    requires Sorted(pairs) && NoAdjacentDuplicate(pairs)
    ensures Ascending(pairs)
    decreases |pairs|
  {
    if |pairs| >= 2 {
      assert Distinct(pairs, 0);
      LessTotal(pairs[0].0, pairs[1].0);
      forall i | 0 <= i < |pairs[1..]| - 1 ensures Distinct(pairs[1..], i) { assert Distinct(pairs, i + 1); }
      SortedDistinctAscending(pairs[1..]);
    }
  }

  // ----- the canonical form keeps everything -----

  /** Same usage, depth and well-typed texts. */
  ghost predicate SameShape(a: Value, b: Value) {
    && Measurable(a) && Measurable(b) && Measure(a) == Measure(b)
    && Depth(a) == Depth(b)
    && (TextsValid(a) ==> TextsValid(b))
  }

  ghost predicate EntryTextsValid(e: Entry) { TextsValid(e.key) && TextsValid(e.value) }

  ghost predicate EntriesMeasurable(entries: seq<Entry>) {
    forall i :: 0 <= i < |entries| ==> Measurable(entries[i].key) && Measurable(entries[i].value)
  }

  lemma {:induction false} InsertKeepsShape(e: Entry, sorted: seq<Entry>)
    requires Encode(e.key).Ok? && KeysEncode(sorted)
    requires Measurable(e.key) && Measurable(e.value) && EntriesMeasurable(sorted)
    ensures var r := InsertEntry(e, sorted);
            && EntriesMeasurable(r) && MeasureEntries(r) == MeasureEntry(e).Plus(MeasureEntries(sorted))
            && DepthEntries(r) == Max(1 + DepthEntry(e), DepthEntries(sorted))
    decreases |sorted|
  {
    hide Measure, Measurable, MeasureEntry, Depth, DepthEntry, Encode, Less;
    if sorted == [] || !Less(Encode(sorted[0].key).value, Encode(e.key).value) {
      assert ([e] + sorted)[1..] == sorted;
    } else {
      InsertKeepsShape(e, sorted[1..]);
      var rest := InsertEntry(e, sorted[1..]);
      assert ([sorted[0]] + rest)[1..] == rest;
    }
  }

  lemma {:induction false} SortKeepsShape(entries: seq<Entry>)
    requires KeysEncode(entries) && EntriesMeasurable(entries)
    ensures var r := SortEntries(entries);
            EntriesMeasurable(r) && MeasureEntries(r) == MeasureEntries(entries) && DepthEntries(r) == DepthEntries(entries)
    decreases |entries|
  {
    hide Measure, Measurable, MeasureEntry, Depth, DepthEntry, Encode, InsertEntry;
    if entries != [] {
      SortKeepsShape(entries[1..]);
      InsertKeepsShape(entries[0], SortEntries(entries[1..]));
    }
  }

  /** The second value encodes to the same bytes, is canonical, and is charged the same. */
  ghost predicate Faithful(a: Value, b: Value) {
    Encode(b) == Encode(a) && Canonical(b) && SameShape(a, b)
  }

  ghost predicate ItemsFaithful(items: seq<Value>, r: seq<Value>) {
    |items| == |r| && forall i :: 0 <= i < |items| ==> Faithful(items[i], r[i])
  }

  /** Encoding a value and encoding its canonical form give the same bytes and the same charges. */
  lemma {:induction false} CanonFaithful(v: Value)
    requires Encode(v).Ok?
    ensures Faithful(v, Canon(v))
    decreases v
  {
    match v
    case Array(items) =>
      CanonItemsFaithful(items);
      ArrayFaithful(items, CanonItems(items));
    case Map(entries) =>
      CanonEntriesFaithful(entries);
      MapFaithful(entries, CanonEntries(entries));
    case _ =>
  }

  lemma {:induction false} CanonItemsFaithful(items: seq<Value>)
    requires EncodeItems(items).Ok?
    ensures ItemsFaithful(items, CanonItems(items))
    decreases items
  {
    if items != [] {
      CanonFaithful(items[0]);
      CanonItemsFaithful(items[1..]);
      hide Faithful;
      var tail := CanonItems(items[1..]);
      forall i | 0 <= i < |items| ensures Faithful(items[i], CanonItems(items)[i]) {
        if i > 0 { assert Faithful(items[1..][i - 1], tail[i - 1]); }
      }
    }
  }

  lemma {:induction false} ItemTotals(items: seq<Value>, r: seq<Value>)
    requires ItemsFaithful(items, r)
    ensures forall i :: 0 <= i < |items| ==> Measurable(items[i]) && Measurable(r[i])
    ensures EncodeItems(r) == EncodeItems(items)
    ensures MeasureItems(r) == MeasureItems(items) && DepthItems(r) == DepthItems(items)
    decreases |items|
  {
    hide Encode;
    hide Measure;
    hide Measurable;
    hide Depth;
    hide Canonical;
    hide TextsValid;
    forall i | 0 <= i < |items| ensures Measurable(items[i]) && Measurable(r[i]) {
      assert Faithful(items[i], r[i]);
    }
    if items != [] {
      assert Faithful(items[0], r[0]);
      assert ItemsFaithful(items[1..], r[1..]) by {
        forall i | 0 <= i < |items[1..]| ensures Faithful(items[1..][i], r[1..][i]) {
          assert Faithful(items[i + 1], r[i + 1]);
        }
      }
      ItemTotals(items[1..], r[1..]);
    }
  }

  lemma {:induction false} ArrayFaithful(items: seq<Value>, r: seq<Value>)
    requires Encode(Array(items)).Ok? && ItemsFaithful(items, r)
    ensures Faithful(Array(items), Array(r))
  {
    ItemTotals(items, r);
    forall i | 0 <= i < |r|
      ensures Canonical(r[i]) && (TextsValid(items[i]) ==> TextsValid(r[i]))
    {
      assert Faithful(items[i], r[i]);
    }
  }

  /** What holds of the children of a map before they are sorted. */
  ghost predicate EntryFaithful(e: Entry, c: Entry) {
    && EncodeEntry(c) == EncodeEntry(e)
    && Canonical(c.key) && Canonical(c.value)
    && Measurable(e.key) && Measurable(e.value) && Measurable(c.key) && Measurable(c.value)
    && MeasureEntry(c) == MeasureEntry(e) && DepthEntry(c) == DepthEntry(e)
    && (EntryTextsValid(e) ==> EntryTextsValid(c))
  }

  ghost predicate EntriesFaithful(entries: seq<Entry>, children: seq<Entry>) {
    |entries| == |children| && forall i :: 0 <= i < |entries| ==> EntryFaithful(entries[i], children[i])
  }

  lemma {:induction false} CanonEntryFaithful(e: Entry)
    requires EncodeEntry(e).Ok?
    ensures EntryFaithful(e, CanonEntry(e))
    decreases e
  {
    CanonFaithful(e.key);
    CanonFaithful(e.value);
  }

  lemma {:induction false} CanonEntriesFaithful(entries: seq<Entry>)
    requires EncodeEntries(entries).Ok?
    ensures EntriesFaithful(entries, CanonEntries(entries))
    decreases entries
  {
    if entries != [] {
      CanonEntryFaithful(entries[0]);
      CanonEntriesFaithful(entries[1..]);
      hide EntryFaithful;
      var tail := CanonEntries(entries[1..]);
      forall i | 0 <= i < |entries| ensures EntryFaithful(entries[i], CanonEntries(entries)[i]) {
        if i > 0 { assert EntryFaithful(entries[1..][i - 1], tail[i - 1]); }
      }
    }
  }

  lemma {:induction false} FaithfulTotals(entries: seq<Entry>, children: seq<Entry>)
    requires EncodeEntries(entries).Ok? && EntriesFaithful(entries, children)
    ensures EncodeEntries(children) == EncodeEntries(entries)
    ensures EntriesMeasurable(entries) && EntriesMeasurable(children)
    ensures MeasureEntries(children) == MeasureEntries(entries) && DepthEntries(children) == DepthEntries(entries)
    decreases |entries|
  {
    hide Encode;
    hide Measure;
    hide Measurable;
    hide Depth;
    hide Canonical;
    hide TextsValid;
    if entries != [] {
      assert EntryFaithful(entries[0], children[0]);
      assert EntriesFaithful(entries[1..], children[1..]) by {
        forall i | 0 <= i < |entries[1..]| ensures EntryFaithful(entries[1..][i], children[1..][i]) {
          assert EntryFaithful(entries[i + 1], children[i + 1]);
        }
      }
      FaithfulTotals(entries[1..], children[1..]);
      forall i | 0 <= i < |entries|
        ensures Measurable(entries[i].key) && Measurable(entries[i].value) && Measurable(children[i].key) && Measurable(children[i].value)
      {
        assert EntryFaithful(entries[i], children[i]);
      }
    }
  }

  /** A map with faithful children, once sorted, is the faithful canonical map. */
  lemma {:induction false} MapFaithful(entries: seq<Entry>, children: seq<Entry>)
    requires Encode(Map(entries)).Ok? && EntriesFaithful(entries, children)
    ensures KeysEncode(children) && Faithful(Map(entries), Map(SortEntries(children)))
  {
    FaithfulTotals(entries, children);
    EncodedKeys(children);
    SortKeepsShape(children);
    SortCommutes(children);
    var sorted := SortEntries(children);
    var pairs := Sort(EncodeEntries(entries).value);
    SortSorted(EncodeEntries(entries).value);
    SortedDistinctAscending(pairs);
    SortAscending(pairs);
    assert forall i :: 0 <= i < |sorted| ==> sorted[i] in children;
    SortedMapFaithful(entries, children, sorted, pairs);
  }

  lemma {:induction false} SortedMapFaithful(entries: seq<Entry>, children: seq<Entry>, sorted: seq<Entry>, pairs: seq<Pair>)
    requires Encode(Map(entries)).Ok? && EntriesFaithful(entries, children)
    requires |sorted| == |entries| && forall i :: 0 <= i < |sorted| ==> sorted[i] in children
    requires EncodeEntries(sorted) == Ok(pairs) && pairs == Sort(EncodeEntries(entries).value)
    requires Ascending(pairs) && Sort(pairs) == pairs
    requires EntriesMeasurable(entries) && EntriesMeasurable(sorted)
    requires MeasureEntries(sorted) == MeasureEntries(entries) && DepthEntries(sorted) == DepthEntries(entries)
    ensures Faithful(Map(entries), Map(sorted))
  {
    hide EncodeEntries;
    hide EncodeEntry;
    hide MeasureEntries;
    hide MeasureEntry;
    hide DepthEntries;
    hide DepthEntry;
    hide Ascending;
    hide Sort;
    hide Flatten;
    SortedChildren(entries, children, sorted);
    assert |entries| <= U64_MAX;
    MapShape(entries, sorted);
    assert Encode(Map(sorted)) == Encode(Map(entries)) by { hide Canonical; hide TextsValid; hide Measure; hide SameShape; }
    assert Canonical(Map(sorted)) by { hide TextsValid; hide Measure; hide Encode; hide SameShape; }
    hide Encode;
    hide Canonical;
    hide SameShape;
  }

  lemma {:induction false} MapShape(entries: seq<Entry>, sorted: seq<Entry>)
    requires |sorted| == |entries| <= U64_MAX
    requires EntriesMeasurable(entries) && EntriesMeasurable(sorted)
    requires MeasureEntries(sorted) == MeasureEntries(entries) && DepthEntries(sorted) == DepthEntries(entries)
    requires TextsValid(Map(entries)) ==>
               forall i :: 0 <= i < |sorted| ==> TextsValid(sorted[i].key) && TextsValid(sorted[i].value)
    ensures SameShape(Map(entries), Map(sorted))
  {
    hide MeasureEntries;
    hide DepthEntries;
    assert Measurable(Map(entries)) && Measurable(Map(sorted));
    assert Measure(Map(sorted)) == Measure(Map(entries)) by { hide TextsValid; }
  }

  lemma {:induction false} SortedChildren(entries: seq<Entry>, children: seq<Entry>, sorted: seq<Entry>)
    requires EntriesFaithful(entries, children) && forall i :: 0 <= i < |sorted| ==> sorted[i] in children
    ensures forall i :: 0 <= i < |sorted| ==> Canonical(sorted[i].key) && Canonical(sorted[i].value)
    ensures TextsValid(Map(entries)) ==>
              forall i :: 0 <= i < |sorted| ==> TextsValid(sorted[i].key) && TextsValid(sorted[i].value)
  {
    hide Canonical;
    hide Measure;
    hide Encode;
    forall i | 0 <= i < |sorted|
      ensures Canonical(sorted[i].key) && Canonical(sorted[i].value)
      ensures TextsValid(Map(entries)) ==> TextsValid(sorted[i].key) && TextsValid(sorted[i].value)
    {
      var j :| 0 <= j < |children| && children[j] == sorted[i];
      assert EntryFaithful(entries[j], children[j]);
    }
  }
}
