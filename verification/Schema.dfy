/** Schema values built from CBOR, and what the writer checks about them before encoding. */
module Schema {
  import opened Bytes
  import opened Cbor
  import opened CborCanon
  import opened CborCodec
  import opened CborParser

  /** ASCII text as bytes. */
  function Ascii(s: string): (b: seq<Byte>)
    requires forall i :: 0 <= i < |s| ==> s[i] < 128 as char
    ensures |b| == |s|
  {
    seq(|s|, i requires 0 <= i < |s| => s[i] as int)
  }

  function TextPair(key: string, value: Value): Entry
    requires forall i :: 0 <= i < |key| ==> key[i] < 128 as char
  {
    Entry(Text(Ascii(key)), value)
  }

  datatype Checksum = Checksum(algorithm: seq<Byte>, value: seq<Byte>)

  /** A Rust string fits in memory; the digest has 32 bytes. */
  predicate ChecksumFits(c: Checksum) { |c.algorithm| <= U64_MAX && |c.value| == 32 }

  function ChecksumValue(c: Checksum): Value {
    Map([TextPair("algorithm", Text(c.algorithm)), TextPair("value", ByteString(c.value))])
  }

  function VersionValue(): Value { Array([Integer(0), Integer(1)]) }

  // ----- additive measuring -----

  /** A head takes at most nine bytes and payloads are allocated, so both totals bound the size. */
  lemma {:induction false} EncodedBound(v: Value)
    requires Measurable(v)
    ensures Measure(v).encoded <= 9 * Measure(v).items + Measure(v).allocation
    decreases v
  {
    match v
    case Array(items) => EncodedBoundItems(items);
    case Map(entries) => EncodedBoundEntries(entries);
    case _ =>
  }

  lemma {:induction false} EncodedBoundItems(items: seq<Value>)
    requires ItemsMeasurable(items)
    ensures MeasureItems(items).encoded <= 9 * MeasureItems(items).items + MeasureItems(items).allocation
    decreases items
  {
    if items != [] {
      EncodedBound(items[0]);
      EncodedBoundItems(items[1..]);
    }
  }

  lemma {:induction false} EncodedBoundEntry(e: Entry)
    requires Measurable(e.key) && Measurable(e.value)
    ensures MeasureEntry(e).encoded <= 9 * MeasureEntry(e).items + MeasureEntry(e).allocation
    decreases e
  {
    EncodedBound(e.key);
    EncodedBound(e.value);
  }

  lemma {:induction false} EncodedBoundEntries(entries: seq<Entry>)
    requires EntriesMeasurable(entries)
    ensures MeasureEntries(entries).encoded <= 9 * MeasureEntries(entries).items + MeasureEntries(entries).allocation
    decreases entries
  {
    if entries != [] {
      EncodedBoundEntry(entries[0]);
      EncodedBoundEntries(entries[1..]);
    }
  }

  lemma {:induction false} MeasureUpdate(es: seq<Entry>, k: nat, e: Entry)
    requires EntriesMeasurable(es) && k < |es| && Measurable(e.key) && Measurable(e.value)
    ensures EntriesMeasurable(es[k := e])
    ensures MeasureEntries(es[k := e]).Plus(MeasureEntry(es[k])) == MeasureEntries(es).Plus(MeasureEntry(e))
    decreases |es|
  {
    hide MeasureEntry;
    hide Measurable;
    var fs := es[k := e];
    forall i | 0 <= i < |fs| ensures Measurable(fs[i].key) && Measurable(fs[i].value) {
      assert fs[i] == if i == k then e else es[i];
    }
    if k == 0 {
      assert es[k := e][1..] == es[1..];
    } else {
      MeasureUpdate(es[1..], k - 1, e);
      assert es[k := e][1..] == es[1..][k - 1 := e];
    }
  }

  ghost predicate SameCost(a: Entry, b: Entry) {
    && Measurable(a.key) && Measurable(a.value) && Measurable(b.key) && Measurable(b.value)
    && MeasureEntry(a).items == MeasureEntry(b).items && MeasureEntry(a).allocation == MeasureEntry(b).allocation
  }

  lemma {:induction false} MeasureSame(es: seq<Entry>, fs: seq<Entry>)
    requires |es| == |fs| && forall i :: 0 <= i < |es| ==> SameCost(es[i], fs[i])
    ensures EntriesMeasurable(es) && EntriesMeasurable(fs)
    ensures MeasureEntries(es).items == MeasureEntries(fs).items
    ensures MeasureEntries(es).allocation == MeasureEntries(fs).allocation
    decreases |es|
  {
    hide MeasureEntry;
    hide Measurable;
    forall i | 0 <= i < |es|
      ensures Measurable(es[i].key) && Measurable(es[i].value) && Measurable(fs[i].key) && Measurable(fs[i].value)
    {
      assert SameCost(es[i], fs[i]);
    }
    if es != [] {
      assert SameCost(es[0], fs[0]);
      forall i | 0 <= i < |es[1..]| ensures SameCost(es[1..][i], fs[1..][i]) { assert SameCost(es[i + 1], fs[i + 1]); }
      MeasureSame(es[1..], fs[1..]);
    }
  }

  // ----- document index -----

  datatype DocumentEntry = DocumentEntry(
    docId: seq<Byte>, docIdHash: seq<Byte>,
    logicalOffset: U64, byteLength: U64, firstLine: U64, lineCount: U64, chunkStart: U64, chunkEnd: U64,
    checksum: Checksum)

  predicate DocumentFits(d: DocumentEntry) { |d.docId| <= U64_MAX && |d.docIdHash| == 16 && ChecksumFits(d.checksum) }

  function DocumentEntries(d: DocumentEntry): seq<Entry> {
    [TextPair("doc_id", Text(d.docId)),
     TextPair("doc_id_hash", ByteString(d.docIdHash)),
     TextPair("logical_offset", Integer(d.logicalOffset)),
     TextPair("byte_length", Integer(d.byteLength)),
     TextPair("first_line", Integer(d.firstLine)),
     TextPair("line_count", Integer(d.lineCount)),
     TextPair("chunk_start", Integer(d.chunkStart)),
     TextPair("chunk_end", Integer(d.chunkEnd)),
     TextPair("checksum", ChecksumValue(d.checksum)),
     TextPair("metadata", Map([]))]
  }

  /** `document_entry_value` */
  function DocumentValue(d: DocumentEntry): Value { Map(DocumentEntries(d)) }

  function DocumentValues(ds: seq<DocumentEntry>): (r: seq<Value>)
    ensures |r| == |ds|
  {
    if ds == [] then [] else [DocumentValue(ds[0])] + DocumentValues(ds[1..])
  }

  function IndexEntries(containerId: seq<Byte>, documents: seq<Value>): seq<Entry> {
    [TextPair("schema", Text(Ascii("qzt.document-index.v1"))),
     TextPair("format_version", VersionValue()),
     TextPair("container_id", ByteString(containerId)),
     TextPair("documents", Array(documents))]
  }

  /** `value_with_documents` */
  function IndexValue(containerId: seq<Byte>, documents: seq<Value>): Value { Map(IndexEntries(containerId, documents)) }

  lemma {:induction false} ChecksumMeasure(c: Checksum)
    requires ChecksumFits(c)
    ensures Measurable(ChecksumValue(c))
    ensures Measure(ChecksumValue(c)).items == 5
    ensures Measure(ChecksumValue(c)).allocation == 62 + |c.algorithm|
  {
    var a, b := TextPair("algorithm", Text(c.algorithm)), TextPair("value", ByteString(c.value));
    assert [a, b][1..] == [b] && [b][1..] == [];
    assert MeasureEntry(a).items == 2 && MeasureEntry(a).allocation == 10 + 9 + |c.algorithm|;
    assert MeasureEntry(b).items == 2 && MeasureEntry(b).allocation == 6 + 5 + 32;
    assert MeasureEntries([b]) == MeasureEntry(b).Plus(MeasureEntries([]));
    assert MeasureEntries([a, b]) == MeasureEntry(a).Plus(MeasureEntries([b]));
  }

  /** A key of at most 23 bytes costs its payload once and its encoded copy once. */
  lemma {:induction false} ShortKeyMeasure(key: string, v: Value)
    requires (forall i :: 0 <= i < |key| ==> key[i] < 128 as char) && |key| <= 23 && Measurable(v)
    ensures var e := TextPair(key, v);
            && Measurable(e.key) && e.value == v
            && MeasureEntry(e) == Usage(1, 1 + 2 * |key|, 1 + |key|).Plus(Measure(v))
  {
    assert Measurable(Text(Ascii(key))) && Measure(Text(Ascii(key))) == Usage(1, |key|, 1 + |key|);
    hide Measurable;
    hide Measure;
  }

  predicate IsLeaf(v: Value) {
    match v
    case Integer(n) => 0 <= n <= U64_MAX
    case Text(b) => |b| <= U64_MAX
    case ByteString(b) => |b| <= U64_MAX
    case Map(es) => es == []
    case _ => false
  }

  function PayloadOf(v: Value): nat {
    match v case Text(b) => |b| case ByteString(b) => |b| case _ => 0
  }

  lemma {:induction false} LeafMeasure(v: Value)
    requires IsLeaf(v)
    ensures Measurable(v) && Measure(v).items == 1 && Measure(v).allocation == PayloadOf(v)
  {
  }

  /** One document field: a short key and a leaf value. */
  lemma {:induction false} FieldMeasure(key: string, v: Value)
    requires (forall i :: 0 <= i < |key| ==> key[i] < 128 as char) && |key| <= 23 && IsLeaf(v)
    ensures Measurable(v) && Measurable(TextPair(key, v).key) && TextPair(key, v).value == v
    ensures MeasureEntry(TextPair(key, v)).items == 2
    ensures MeasureEntry(TextPair(key, v)).allocation == 1 + 2 * |key| + PayloadOf(v)
  {
    hide Measure;
    hide Measurable;
    hide MeasureEntry;
    hide TextPair;
    hide IsLeaf;
    hide PayloadOf;
    LeafMeasure(v);
    ShortKeyMeasure(key, v);
  }

  /** Every document costs 25 items, and its allocation varies only with its id and algorithm name. */
  lemma {:induction false} DocumentMeasure(d: DocumentEntry)
    requires DocumentFits(d)
    ensures Measurable(DocumentValue(d))
    ensures Measure(DocumentValue(d)).items == 25
    ensures Measure(DocumentValue(d)).allocation == 284 + |d.docId| + |d.checksum.algorithm|
  {
    hide ChecksumValue;
    hide TextPair;
    hide MeasureEntry;
    hide MeasureEntries;
    hide Measure;
    var es := DocumentEntries(d);
    DocumentFields(d);
    TenEntries(es);
    MapMeasure(es);
  }

  lemma {:induction false} MapMeasure(es: seq<Entry>)
    requires |es| <= U64_MAX && EntriesMeasurable(es)
    ensures Measurable(Map(es)) && Measure(Map(es)) == Usage(1, 0, HeadLen(|es|)).Plus(MeasureEntries(es))
  {
    hide MeasureEntries;
  }

  lemma {:induction false} DocumentFields(d: DocumentEntry)
    requires DocumentFits(d)
    ensures var es := DocumentEntries(d);
            && EntriesMeasurable(es)
            && (forall i :: 0 <= i < 10 ==> MeasureEntry(es[i]).items == if i == 8 then 6 else 2)
            && MeasureEntry(es[0]).allocation == 13 + |d.docId| && MeasureEntry(es[1]).allocation == 39
            && MeasureEntry(es[2]).allocation == 29 && MeasureEntry(es[3]).allocation == 23
            && MeasureEntry(es[4]).allocation == 21 && MeasureEntry(es[5]).allocation == 21
            && MeasureEntry(es[6]).allocation == 23 && MeasureEntry(es[7]).allocation == 19
            && MeasureEntry(es[8]).allocation == 79 + |d.checksum.algorithm| && MeasureEntry(es[9]).allocation == 17
  {
    hide Measurable;
    hide ChecksumValue;
    hide MeasureEntry;
    hide Measure;
    hide TextPair;
    var es := DocumentEntries(d);
    ChecksumMeasure(d.checksum);
    ShortKeyMeasure("checksum", ChecksumValue(d.checksum));
    FieldMeasure("doc_id", Text(d.docId));
    FieldMeasure("doc_id_hash", ByteString(d.docIdHash));
    FieldMeasure("logical_offset", Integer(d.logicalOffset));
    FieldMeasure("byte_length", Integer(d.byteLength));
    FieldMeasure("first_line", Integer(d.firstLine));
    FieldMeasure("line_count", Integer(d.lineCount));
    FieldMeasure("chunk_start", Integer(d.chunkStart));
    FieldMeasure("chunk_end", Integer(d.chunkEnd));
    FieldMeasure("metadata", Map([]));
  }

  lemma {:induction false} TenEntries(es: seq<Entry>)
    requires |es| == 10 && EntriesMeasurable(es)
    ensures MeasureEntries(es).items
            == MeasureEntry(es[0]).items + MeasureEntry(es[1]).items + MeasureEntry(es[2]).items + MeasureEntry(es[3]).items
             + MeasureEntry(es[4]).items + MeasureEntry(es[5]).items + MeasureEntry(es[6]).items + MeasureEntry(es[7]).items
             + MeasureEntry(es[8]).items + MeasureEntry(es[9]).items
    ensures MeasureEntries(es).allocation
            == MeasureEntry(es[0]).allocation + MeasureEntry(es[1]).allocation + MeasureEntry(es[2]).allocation
             + MeasureEntry(es[3]).allocation + MeasureEntry(es[4]).allocation + MeasureEntry(es[5]).allocation
             + MeasureEntry(es[6]).allocation + MeasureEntry(es[7]).allocation + MeasureEntry(es[8]).allocation
             + MeasureEntry(es[9]).allocation
  {
    hide Measurable;
    hide MeasureEntry;
    SumFromIsMeasure(es, 0);
    assert es[0..] == es;
    assert SumFrom(es, 0) == MeasureEntry(es[0]).Plus(MeasureEntry(es[1]).Plus(SumFrom(es, 2)));
    assert SumFrom(es, 2) == MeasureEntry(es[2]).Plus(MeasureEntry(es[3]).Plus(SumFrom(es, 4)));
    assert SumFrom(es, 4) == MeasureEntry(es[4]).Plus(MeasureEntry(es[5]).Plus(SumFrom(es, 6)));
    assert SumFrom(es, 6) == MeasureEntry(es[6]).Plus(MeasureEntry(es[7]).Plus(SumFrom(es, 8)));
    assert SumFrom(es, 8) == MeasureEntry(es[8]).Plus(MeasureEntry(es[9]).Plus(SumFrom(es, 10)));
  }

  lemma {:induction false} SumFromIsMeasure(es: seq<Entry>, i: nat)
    requires i <= |es| && EntriesMeasurable(es)
    ensures EntriesMeasurable(es[i..]) && MeasureEntries(es[i..]) == SumFrom(es, i)
    decreases |es| - i
  {
    hide Measurable;
    hide MeasureEntry;
    if i < |es| {
      SumFromIsMeasure(es, i + 1);
      assert es[i..][1..] == es[i + 1..];
    }
  }

  ghost function SumFrom(es: seq<Entry>, i: nat): Usage
    requires i <= |es| && EntriesMeasurable(es)
    decreases |es| - i
  {
    if i == |es| then Usage(0, 0, 0) else MeasureEntry(es[i]).Plus(SumFrom(es, i + 1))
  }

  // ----- the writer's pre-check -----

  datatype WriterLimits = WriterLimits(maxAllocation: U64, maxItems: U64, maxBlock: U64)

  /** `CborUsage::enforce` */
  predicate Enforced(u: Usage, limits: WriterLimits) {
    u.items <= limits.maxItems && u.allocation <= limits.maxAllocation && u.encoded <= limits.maxBlock
  }

  ghost predicate AllFit(ds: seq<DocumentEntry>) { forall i :: 0 <= i < |ds| ==> DocumentFits(ds[i]) }

  lemma {:induction false} DocumentsMeasurable(ds: seq<DocumentEntry>)
    requires AllFit(ds)
    ensures ItemsMeasurable(DocumentValues(ds))
    decreases |ds|
  {
    hide Measurable;
    hide DocumentValue;
    if ds != [] {
      DocumentMeasure(ds[0]);
      DocumentsMeasurable(ds[1..]);
      ItemsMeasurableCons(DocumentValues(ds));
      assert DocumentValues(ds)[1..] == DocumentValues(ds[1..]);
    }
  }

  lemma {:induction false} PairMeasure(a: Value, b: Value)
    requires Measurable(a) && Measurable(b)
    ensures Measurable(Array([a, b]))
    ensures Measure(Array([a, b])) == Usage(1, 0, 1).Plus(Measure(a)).Plus(Measure(b))
  {
    hide Measure, Measurable;
    var items := [a, b];
    assert items[1..] == [b] && [b][1..] == [];
    ArrayMeasure(items);
    assert MeasureItems([b]) == Measure(b).Plus(MeasureItems([]));
    assert MeasureItems(items) == Measure(a).Plus(MeasureItems([b]));
  }

  lemma {:induction false} VersionMeasure()
    ensures Measurable(VersionValue())
    ensures Measure(VersionValue()).items == 3 && Measure(VersionValue()).allocation == 0
  {
    hide Measure;
    LeafMeasure(Integer(0));
    LeafMeasure(Integer(1));
    PairMeasure(Integer(0), Integer(1));
  }

  lemma {:induction false} ArrayMeasure(items: seq<Value>)
    requires |items| <= U64_MAX && ItemsMeasurable(items)
    ensures Measurable(Array(items)) && Measure(Array(items)) == Usage(1, 0, HeadLen(|items|)).Plus(MeasureItems(items))
  {
    hide MeasureItems;
  }

  lemma {:induction false} DocumentsFieldMeasure(documents: seq<Value>)
    requires |documents| <= U64_MAX && ItemsMeasurable(documents)
    ensures var e := TextPair("documents", Array(documents));
            && Measurable(e.key) && Measurable(e.value) && e.value == Array(documents)
            && MeasureEntry(e) == Usage(2, 19, 10 + HeadLen(|documents|)).Plus(MeasureItems(documents))
  {
    hide Measure;
    hide Measurable;
    hide MeasureItems;
    hide MeasureEntry;
    ArrayMeasure(documents);
    ShortKeyMeasure("documents", Array(documents));
  }

  lemma {:induction false} BaseFields(containerId: seq<Byte>)
    requires |containerId| == 16
    ensures var es := IndexEntries(containerId, []);
            && EntriesMeasurable(es)
            && MeasureEntry(es[0]).items == 2 && MeasureEntry(es[0]).allocation == 34
            && MeasureEntry(es[1]).items == 4 && MeasureEntry(es[1]).allocation == 29
            && MeasureEntry(es[2]).items == 2 && MeasureEntry(es[2]).allocation == 41
            && MeasureEntry(es[3]) == Usage(2, 19, 11)
  {
    hide Measurable;
    hide Measure;
    hide VersionValue;
    hide MeasureEntry;
    hide TextPair;
    VersionMeasure();
    var none: seq<Value> := [];
    DocumentsFieldMeasure(none);
    assert MeasureItems(none) == Usage(0, 0, 0);
    FieldMeasure("schema", Text(Ascii("qzt.document-index.v1")));
    ShortKeyMeasure("format_version", VersionValue());
    FieldMeasure("container_id", ByteString(containerId));
  }

  /** The index without documents: 11 items and 123 bytes, whatever the container id. */
  lemma {:induction false} BaseMeasure(containerId: seq<Byte>)
    requires |containerId| == 16
    ensures Measurable(IndexValue(containerId, []))
    ensures Measure(IndexValue(containerId, [])).items == 11 && Measure(IndexValue(containerId, [])).allocation == 123
  {
    hide Measurable;
    hide MeasureEntry;
    hide TextPair;
    hide VersionValue;
    BaseFields(containerId);
    var es := IndexEntries(containerId, []);
    SumFromIsMeasure(es, 0);
    assert es[0..] == es;
    MapMeasure(es);
    hide MeasureEntries;
    hide Measure;
    assert SumFrom(es, 0) == MeasureEntry(es[0]).Plus(MeasureEntry(es[1]).Plus(SumFrom(es, 2)));
    assert SumFrom(es, 2) == MeasureEntry(es[2]).Plus(MeasureEntry(es[3]).Plus(SumFrom(es, 4)));
  }

  lemma {:induction false} IndexEntriesUpdate(containerId: seq<Byte>, documents: seq<Value>)
    ensures |IndexEntries(containerId, [])| == 4
    ensures IndexEntries(containerId, [])[3 := TextPair("documents", Array(documents))] == IndexEntries(containerId, documents)
  {
    hide TextPair;
  }

  /** Documents add to the empty index; only the array head grows with their number. */
  lemma {:induction false} IndexMeasure(containerId: seq<Byte>, documents: seq<Value>)
    requires |containerId| == 16 && |documents| <= U64_MAX && ItemsMeasurable(documents)
    ensures Measurable(IndexValue(containerId, [])) && Measurable(IndexValue(containerId, documents))
    ensures var whole, base, items := Measure(IndexValue(containerId, documents)), Measure(IndexValue(containerId, [])), MeasureItems(documents);
            && whole.items == base.items + items.items
            && whole.allocation == base.allocation + items.allocation
            && whole.encoded == base.encoded + HeadLen(|documents|) - HeadLen(0) + items.encoded
  {
    hide Measurable;
    hide MeasureEntry;
    hide Measure;
    hide MeasureItems;
    hide TextPair;
    hide VersionValue;
    IndexEntriesUpdate(containerId, documents);
    BaseFields(containerId);
    DocumentsFieldMeasure(documents);
    hide IndexEntries;
    var es := IndexEntries(containerId, []);
    var e := TextPair("documents", Array(documents));
    MeasureUpdate(es, 3, e);
    MapMeasure(es);
    MapMeasure(es[3 := e]);
    hide MeasureEntries;
  }

  ghost function TreeUsage(containerId: seq<Byte>, ds: seq<DocumentEntry>): Usage
    requires |containerId| == 16 && |ds| <= U64_MAX && AllFit(ds)
  {
    DocumentsMeasurable(ds);
    IndexMeasure(containerId, DocumentValues(ds));
    Measure(IndexValue(containerId, DocumentValues(ds)))
  }

  /** Checking one document at a time decides the bounds of the whole tree. */
  method ValidateForWriter(containerId: seq<Byte>, documents: seq<DocumentEntry>, limits: WriterLimits) returns (ok: bool)
    requires |containerId| == 16 && AllFit(documents)
    ensures ok <==> |documents| <= U64_MAX && Enforced(TreeUsage(containerId, documents), limits)
  {
    hide Measurable;
    hide Measure;
    hide MeasureItems;
    hide DocumentValue;
    hide DocumentValues;
    hide IndexValue;
    if |documents| > U64_MAX { return false; }
    DocumentsMeasurable(documents);
    IndexMeasure(containerId, DocumentValues(documents));
    ghost var total := TreeUsage(containerId, documents);
    if |documents| > limits.maxItems { return false; }
    var base := MeasureValue(IndexValue(containerId, []));
    if base.Err? { return false; }
    var usage := base.value.Plus(Usage(0, 0, HeadLen(|documents|) - HeadLen(0)));
    if usage.encoded > U64_MAX { return false; }
    if !Enforced(usage, limits) { return false; }
    assert documents[0..] == documents;
    for i := 0 to |documents|
      invariant AllFit(documents[i..]) && ItemsMeasurable(DocumentValues(documents[i..]))
      invariant total == usage.Plus(MeasureItems(DocumentValues(documents[i..])))
      invariant Enforced(usage, limits)
    {
      var d := documents[i];
      assert documents[i..][1..] == documents[i + 1..];
      DocumentsCons(documents[i..]);
      DocumentMeasure(d);
      if |d.docId| > SaturatingSub(limits.maxAllocation, usage.allocation) { return false; }
      var one := MeasureValue(DocumentValue(d));
      if one.Err? { return false; }
      usage := usage.Plus(one.value);
      if !usage.FitsU64() { return false; }
      if !Enforced(usage, limits) { return false; }
    }
    DocumentsNil();
    return true;
  }

  lemma {:induction false} DocumentsCons(ds: seq<DocumentEntry>)
    requires ds != [] && AllFit(ds) && ItemsMeasurable(DocumentValues(ds))
    ensures AllFit(ds[1..]) && ItemsMeasurable(DocumentValues(ds[1..])) && Measurable(DocumentValue(ds[0]))
    ensures MeasureItems(DocumentValues(ds)) == Measure(DocumentValue(ds[0])).Plus(MeasureItems(DocumentValues(ds[1..])))
  {
    hide Measurable;
    hide Measure;
    hide DocumentValue;
    DocumentMeasure(ds[0]);
    DocumentsMeasurable(ds[1..]);
    assert DocumentValues(ds)[1..] == DocumentValues(ds[1..]);
  }

  lemma {:induction false} DocumentsNil()
    ensures MeasureItems(DocumentValues([])) == Usage(0, 0, 0)
  {
  }

  // ----- the identifier preflight -----

  function TotalLength(ids: seq<seq<Byte>>): nat {
    if ids == [] then 0 else |ids[0]| + TotalLength(ids[1..])
  }

  const BLAKE3_NAME_LEN: nat := 6

  /** What the preflight accepts, from the identifiers alone. */
  predicate PreflightAccepts(ids: seq<seq<Byte>>, limits: WriterLimits) {
    && 11 + 25 * |ids| <= limits.maxItems
    && (ids != [] ==> 123 + (284 + BLAKE3_NAME_LEN) * |ids| + TotalLength(ids) <= limits.maxAllocation)
  }

  function SampleDocument(digest: seq<Byte>, idHash: seq<Byte>): DocumentEntry {
    DocumentEntry([], idHash, 0, 0, 0, 0, 0, 0, Checksum(Ascii("blake3"), digest))
  }

  /** `preflight_document_ids`; the digests of the empty sample are parameters. */
  method PreflightDocumentIds(ids: seq<seq<Byte>>, limits: WriterLimits, digest: seq<Byte>, idHash: seq<Byte>) returns (ok: bool)
    requires |digest| == 32 && |idHash| == 16
    ensures ok <==> PreflightAccepts(ids, limits)
  {
    hide Measurable;
    hide Measure;
    hide DocumentValue;
    hide IndexValue;
    if |ids| > U64_MAX { return false; }
    var zeros: seq<Byte> := seq(16, _ => 0);
    BaseMeasure(zeros);
    EncodedBound(IndexValue(zeros, []));
    var base := MeasureValue(IndexValue(zeros, []));
    var sample := SampleDocument(digest, idHash);
    DocumentMeasure(sample);
    EncodedBound(DocumentValue(sample));
    var each := MeasureValue(DocumentValue(sample));
    var items := each.value.items * |ids| + base.value.items;
    if items > U64_MAX { return false; }
    if items > limits.maxItems { return false; }
    var allocation := each.value.allocation * |ids| + base.value.allocation;
    if allocation > U64_MAX { return false; }
    assert ids[0..] == ids;
    for i := 0 to |ids|
      invariant allocation + TotalLength(ids[i..]) == 123 + 290 * |ids| + TotalLength(ids)
      invariant i > 0 ==> allocation <= limits.maxAllocation
    {
      assert ids[i..][1..] == ids[i + 1..];
      allocation := allocation + |ids[i]|;
      if allocation > limits.maxAllocation { return false; }
    }
    return true;
  }

  function Ids(ds: seq<DocumentEntry>): (r: seq<seq<Byte>>)
    ensures |r| == |ds|
  {
    if ds == [] then [] else [ds[0].docId] + Ids(ds[1..])
  }

  function AlgorithmBytes(ds: seq<DocumentEntry>): nat {
    if ds == [] then 0 else |ds[0].checksum.algorithm| + AlgorithmBytes(ds[1..])
  }

  lemma {:induction false} DocumentsTotal(ds: seq<DocumentEntry>)
    requires AllFit(ds) && ItemsMeasurable(DocumentValues(ds))
    ensures MeasureItems(DocumentValues(ds)).items == 25 * |ds|
    ensures MeasureItems(DocumentValues(ds)).allocation == 284 * |ds| + TotalLength(Ids(ds)) + AlgorithmBytes(ds)
    decreases |ds|
  {
    hide Measurable;
    hide Measure;
    hide DocumentValue;
    if ds != [] {
      DocumentMeasure(ds[0]);
      DocumentsMeasurable(ds[1..]);
      DocumentsTotal(ds[1..]);
      assert DocumentValues(ds)[1..] == DocumentValues(ds[1..]);
      assert Ids(ds)[1..] == Ids(ds[1..]);
    }
  }

  lemma {:induction false} TreeTotals(containerId: seq<Byte>, ds: seq<DocumentEntry>)
    requires |containerId| == 16 && |ds| <= U64_MAX && AllFit(ds)
    ensures TreeUsage(containerId, ds).items == 11 + 25 * |ds|
    ensures TreeUsage(containerId, ds).allocation == 123 + 284 * |ds| + TotalLength(Ids(ds)) + AlgorithmBytes(ds)
  {
    hide Measurable;
    hide Measure;
    hide DocumentValues;
    hide IndexValue;
    DocumentsMeasurable(ds);
    IndexMeasure(containerId, DocumentValues(ds));
    BaseMeasure(containerId);
    DocumentsTotal(ds);
  }

  /**
   * The preflight never rejects what the full check accepts, for every limit,
   * exactly when the algorithm names are on average at least as long as "blake3".
   */
  lemma {:induction false} PreflightNeverRejects(containerId: seq<Byte>, ds: seq<DocumentEntry>)
    requires |containerId| == 16 && |ds| <= U64_MAX && AllFit(ds) && TreeUsage(containerId, ds).FitsU64()
    ensures (forall limits :: Enforced(TreeUsage(containerId, ds), limits) ==> PreflightAccepts(Ids(ds), limits))
            <==> AlgorithmBytes(ds) >= BLAKE3_NAME_LEN * |ds|
  {
    TreeTotals(containerId, ds);
    var u := TreeUsage(containerId, ds);
    hide TreeUsage;
    var exact := WriterLimits(u.allocation, u.items, u.encoded);
    assert Enforced(u, exact);
    if AlgorithmBytes(ds) < BLAKE3_NAME_LEN * |ds| { assert !PreflightAccepts(Ids(ds), exact); }
  }

  /** A document with an identifier of `n` letters whose checksum algorithm has no name. */
  function UnnamedAlgorithm(n: nat): DocumentEntry {
    DocumentEntry(seq(n, _ => 97), seq(16, _ => 0), 0, 0, 0, 0, 0, 0, Checksum([], seq(32, _ => 0)))
  }

  lemma {:induction false} TreeEncoded(containerId: seq<Byte>, ds: seq<DocumentEntry>)
    requires |containerId| == 16 && |ds| <= U64_MAX && AllFit(ds)
    ensures TreeUsage(containerId, ds).encoded <= 9 * TreeUsage(containerId, ds).items + TreeUsage(containerId, ds).allocation
  {
    hide Measurable, Measure, DocumentValue, DocumentValues, IndexValue, MeasureItems;
    DocumentsMeasurable(ds);
    IndexMeasure(containerId, DocumentValues(ds));
    EncodedBound(IndexValue(containerId, DocumentValues(ds)));
  }

  /** The limits every writer passes. */
  const DEFAULT_LIMITS := WriterLimits(16 * 1024 * 1024, 1_000_000, 64 * 1024 * 1024)

  /** Room for one document, with the allocation limit below the block limit. */
  predicate HasRoom(limits: WriterLimits) {
    limits.maxItems >= 36 && limits.maxAllocation >= 407 && limits.maxBlock >= limits.maxAllocation + 9 * 36
  }

  /**
   * Under any limits with room, the default ones among them, some document passes the full check
   * and fails the preflight: its identifier fills the allocation, and the six bytes charged for the
   * algorithm's name no longer fit.
   */
  lemma {:induction false} PreflightCounterexample(containerId: seq<Byte>, limits: WriterLimits)
    requires |containerId| == 16 && HasRoom(limits)
    ensures AllFit([UnnamedAlgorithm(limits.maxAllocation - 407)])
    ensures Enforced(TreeUsage(containerId, [UnnamedAlgorithm(limits.maxAllocation - 407)]), limits)
    ensures !PreflightAccepts(Ids([UnnamedAlgorithm(limits.maxAllocation - 407)]), limits)
    ensures HasRoom(DEFAULT_LIMITS)
  {
    var d := UnnamedAlgorithm(limits.maxAllocation - 407);
    assert AllFit([d]);
    assert Ids([d]) == [d.docId] + Ids([d][1..]) && TotalLength([d.docId]) == |d.docId| + TotalLength([d.docId][1..]);
    assert AlgorithmBytes([d]) == 0 + AlgorithmBytes([d][1..]);
    hide Measurable, Measure, DocumentValue, DocumentValues, IndexValue, MeasureItems;
    TreeTotals(containerId, [d]);
    TreeEncoded(containerId, [d]);
    hide TreeUsage;
  }

  // ----- the writer's verdict is the reader's verdict -----

  lemma {:induction false} DepthEntriesBound(es: seq<Entry>, k: nat)
    requires forall i :: 0 <= i < |es| ==> DepthEntry(es[i]) <= k
    ensures DepthEntries(es) <= k + 1
    decreases |es|
  {
    hide DepthEntry;
    if es != [] { DepthEntriesBound(es[1..], k); }
  }

  lemma {:induction false} DepthItemsBound(items: seq<Value>, k: nat)
    requires forall i :: 0 <= i < |items| ==> Depth(items[i]) <= k
    ensures DepthItems(items) <= k + 1
    decreases |items|
  {
    hide Depth;
    if items != [] { DepthItemsBound(items[1..], k); }
  }

  lemma {:induction false} DocumentDepth(d: DocumentEntry)
    ensures Depth(DocumentValue(d)) <= 2
  {
    var cs := [TextPair("algorithm", Text(d.checksum.algorithm)), TextPair("value", ByteString(d.checksum.value))];
    assert forall i :: 0 <= i < |cs| ==> DepthEntry(cs[i]) <= 0;
    DepthEntriesBound(cs, 0);
    assert ChecksumValue(d.checksum) == Map(cs);
    assert Depth(Map(cs)) <= 1;
    var es := DocumentEntries(d);
    forall i | 0 <= i < |es| ensures DepthEntry(es[i]) <= 1 { hide ChecksumValue; }
    DepthEntriesBound(es, 1);
  }

  lemma {:induction false} DocumentsDepth(ds: seq<DocumentEntry>)
    ensures forall i :: 0 <= i < |ds| ==> Depth(DocumentValues(ds)[i]) <= 2
    decreases |ds|
  {
    hide Depth;
    hide DocumentValue;
    if ds != [] {
      DocumentDepth(ds[0]);
      DocumentsDepth(ds[1..]);
      forall i | 0 <= i < |ds| ensures Depth(DocumentValues(ds)[i]) <= 2 {
        if i > 0 { assert DocumentValues(ds)[i] == DocumentValues(ds[1..])[i - 1]; }
      }
    }
  }

  lemma {:induction false} IndexDepth(containerId: seq<Byte>, ds: seq<DocumentEntry>)
    ensures Depth(IndexValue(containerId, DocumentValues(ds))) <= MAX_NESTING_DEPTH
  {
    hide DocumentValues;
    var docs := DocumentValues(ds);
    DocumentsDepth(ds);
    DepthItemsBound(docs, 2);
    DepthItemsBound([Integer(0), Integer(1)], 0);
    var es := IndexEntries(containerId, docs);
    assert Depth(VersionValue()) <= 1 && Depth(Array(docs)) <= 3;
    hide VersionValue;
    forall i | 0 <= i < |es| ensures DepthEntry(es[i]) <= 3 {}
    DepthEntriesBound(es, 3);
  }

  /** An encoded document index passes the writer's bounds exactly when the reader's parser accepts it. */
  lemma {:induction false} WriterAgreesWithReader(containerId: seq<Byte>, ds: seq<DocumentEntry>, limits: WriterLimits)
    requires |containerId| == 16 && |ds| <= U64_MAX && AllFit(ds)
    requires var v := IndexValue(containerId, DocumentValues(ds)); Encode(v).Ok? && TextsValid(v)
    ensures var bytes := Encode(IndexValue(containerId, DocumentValues(ds))).value;
            Enforced(TreeUsage(containerId, ds), limits)
            <==> |bytes| <= limits.maxBlock && Validate(bytes, Limits(limits.maxAllocation, limits.maxItems)).Ok?
  {
    hide Encode;
    hide TextsValid;
    hide Measure;
    hide Measurable;
    hide Depth;
    hide IndexValue;
    hide Validate;
    IndexDepth(containerId, ds);
    EncodingIsAccepted(IndexValue(containerId, DocumentValues(ds)), Limits(limits.maxAllocation, limits.maxItems));
  }
}
