/** What a reader finds under each key of a decoded footer or document entry. */
module MetadataFields {
  import opened Bytes
  import opened Cbor
  import CborLayout
  import opened CborCodec
  import opened Schema
  import opened Footer

  // ----- looking up a text key -----

  function Find(entries: seq<Entry>, key: seq<Byte>): Option<Value> {
    if entries == [] then None else if entries[0].key == Text(key) then Some(entries[0].value) else Find(entries[1..], key)
  }

  /** ASCII text, as every key of the schema is. */
  type Name = s: string | forall i :: 0 <= i < |s| ==> s[i] < 128 as char

  const ALGORITHM: Name := "algorithm"
  const VALUE: Name := "value"
  const OFFSET: Name := "offset"
  const SIZE: Name := "size"
  const CHECKSUM: Name := "checksum"
  const SCHEMA: Name := "schema"
  const FORMAT_VERSION: Name := "format_version"
  const CONTAINER_ID: Name := "container_id"
  const INDEX_ROOT: Name := "index_root"
  const METADATA: Name := "metadata"
  const FINAL_FILE_SIZE: Name := "final_file_size"
  const FOOTER_FLAGS: Name := "footer_flags"
  const CONTAINER_CHECKSUM: Name := "container_checksum"
  const DOC_ID: Name := "doc_id"
  const DOC_ID_HASH: Name := "doc_id_hash"
  const LOGICAL_OFFSET: Name := "logical_offset"
  const BYTE_LENGTH: Name := "byte_length"
  const FIRST_LINE: Name := "first_line"
  const LINE_COUNT: Name := "line_count"
  const CHUNK_START: Name := "chunk_start"
  const CHUNK_END: Name := "chunk_end"
  const DOCUMENTS: Name := "documents"
  const FOOTER_SCHEMA: Name := "qzt.footer.v1"
  const INDEX_SCHEMA: Name := "qzt.document-index.v1"

  /** The value under a text key of a map. */
  function Field(v: Value, key: Name): Option<Value> {
    if v.Map? then Find(v.entries, Ascii(key)) else None
  }

  lemma {:induction false} FindIn(entries: seq<Entry>, key: seq<Byte>)
    ensures match Find(entries, key)
            case None => forall e :: e in entries ==> e.key != Text(key)
            case Some(v) => Entry(Text(key), v) in entries
  {
    if entries != [] {
      FindIn(entries[1..], key);
      assert entries == [entries[0]] + entries[1..];
    }
  }

  lemma {:induction false} CanonEntryAt(entries: seq<Entry>, i: nat)
    requires i < |entries|
    ensures CanonEntries(entries)[i] == CanonEntry(entries[i])
    decreases |entries|
  {
    hide CanonEntry;
    if i > 0 { CanonEntryAt(entries[1..], i - 1); }
  }

  /** Canonical order keeps every field. */
  lemma {:induction false} CanonFields(es: seq<Entry>)
    requires TextKeyed(es)
    ensures Canon(Map(es)).Map?
    ensures forall i :: 0 <= i < |es| ==> Find(Canon(Map(es)).entries, es[i].key.bytes) == Some(Canon(es[i].value))
    ensures forall key :: (forall i :: 0 <= i < |es| ==> es[i].key.bytes != key) ==> Find(Canon(Map(es)).entries, key) == None
  {
    var children := CanonEntries(es);
    forall i | 0 <= i < |es| ensures children[i] == Entry(es[i].key, Canon(es[i].value)) && Encode(children[i].key).Ok? {
      CanonEntryAt(es, i);
      TextEncodes(es[i].key.bytes);
    }
    var sorted := SortEntries(children);
    assert Canon(Map(es)) == Map(sorted);
    CborLayout.SortKeepsEntries(children);
    hide *;
    forall i | 0 <= i < |es| ensures Find(sorted, es[i].key.bytes) == Some(Canon(es[i].value)) {
      FindIn(sorted, es[i].key.bytes);
      assert children[i] in multiset(children);
      assert children[i] in sorted;
      FoundIs(es, children, sorted, i);
    }
    forall key | forall i :: 0 <= i < |es| ==> es[i].key.bytes != key ensures Find(sorted, key) == None {
      FindIn(sorted, key);
      NotFound(es, children, sorted, key);
    }
  }

  lemma {:induction false} TextEncodes(bytes: seq<Byte>)
    requires |bytes| <= U64_MAX
    ensures Encode(Text(bytes)).Ok?
  {
  }

  lemma {:induction false} FoundIs(es: seq<Entry>, children: seq<Entry>, sorted: seq<Entry>, i: nat)
    requires TextKeyed(es) && |children| == |es| && multiset(sorted) == multiset(children) && i < |es|
    requires forall j :: 0 <= j < |es| ==> children[j] == Entry(es[j].key, Canon(es[j].value))
    requires match Find(sorted, es[i].key.bytes)
             case None => forall e :: e in sorted ==> e.key != Text(es[i].key.bytes)
             case Some(v) => Entry(Text(es[i].key.bytes), v) in sorted
    ensures Find(sorted, es[i].key.bytes) == Some(Canon(es[i].value))
  {
    hide Find, Canon, Encode;
    assert children[i] in multiset(children);
    var found := Find(sorted, es[i].key.bytes);
    assert found.Some?;
    var e := Entry(Text(es[i].key.bytes), found.value);
    assert e in multiset(sorted);
    var j :| 0 <= j < |children| && children[j] == e;
    assert es[j].key.bytes == es[i].key.bytes;
  }

  lemma {:induction false} NotFound(es: seq<Entry>, children: seq<Entry>, sorted: seq<Entry>, key: seq<Byte>)
    requires TextKeyed(es) && |children| == |es| && multiset(sorted) == multiset(children)
    requires forall j :: 0 <= j < |es| ==> children[j] == Entry(es[j].key, Canon(es[j].value)) && es[j].key.bytes != key
    ensures forall e :: e in sorted ==> e.key != Text(key)
  {
    hide Canon, Encode;
    forall e | e in sorted ensures e.key != Text(key) {
      assert e in multiset(sorted) && e in multiset(children);
      var j :| 0 <= j < |children| && children[j] == e;
      assert es[j].key.bytes != key;
    }
  }

  // ----- fields of the schema values -----

  ghost predicate HoldsChecksum(v: Option<Value>, c: Checksum) {
    v.Some? && Field(v.value, ALGORITHM) == Some(Text(c.algorithm)) && Field(v.value, VALUE) == Some(ByteString(c.value))
  }

  ghost predicate HoldsBlock(v: Option<Value>, b: BlockRef) {
    && v.Some? && Field(v.value, OFFSET) == Some(Integer(b.offset)) && Field(v.value, SIZE) == Some(Integer(b.size))
    && HoldsChecksum(Field(v.value, CHECKSUM), b.checksum)
  }

  ghost predicate HoldsFooter(v: Value, f: FooterPayload) {
    && Field(v, SCHEMA) == Some(Text(Ascii(FOOTER_SCHEMA)))
    && Field(v, FORMAT_VERSION) == Some(Array([Integer(0), Integer(1)]))
    && Field(v, CONTAINER_ID) == Some(ByteString(f.containerId))
    && HoldsBlock(Field(v, INDEX_ROOT), f.indexRoot) && HoldsBlock(Field(v, METADATA), f.metadata)
    && Field(v, FINAL_FILE_SIZE) == Some(Integer(f.finalFileSize))
    && Field(v, FOOTER_FLAGS) == Some(Integer(f.footerFlags))
    && match f.containerChecksum
       case None => Field(v, CONTAINER_CHECKSUM) == None
       case Some(c) => HoldsChecksum(Field(v, CONTAINER_CHECKSUM), c)
  }

  ghost predicate HoldsDocument(v: Value, d: DocumentEntry) {
    && Field(v, DOC_ID) == Some(Text(d.docId)) && Field(v, DOC_ID_HASH) == Some(ByteString(d.docIdHash))
    && Field(v, LOGICAL_OFFSET) == Some(Integer(d.logicalOffset)) && Field(v, BYTE_LENGTH) == Some(Integer(d.byteLength))
    && Field(v, FIRST_LINE) == Some(Integer(d.firstLine)) && Field(v, LINE_COUNT) == Some(Integer(d.lineCount))
    && Field(v, CHUNK_START) == Some(Integer(d.chunkStart)) && Field(v, CHUNK_END) == Some(Integer(d.chunkEnd))
    && HoldsChecksum(Field(v, CHECKSUM), d.checksum)
    && Field(v, METADATA) == Some(Map([]))
  }

  lemma {:induction false} ChecksumHeld(c: Checksum)
    requires ChecksumFits(c)
    ensures HoldsChecksum(Some(Canon(ChecksumValue(c))), c)
  {
    var es := ChecksumValue(c).entries;
    assert TextKeyed(es);
    hide Encode, Find, Ascii;
    CanonFields(es);
    LeafCanon(es[0].value);
    LeafCanon(es[1].value);
  }

  lemma {:induction false} BlockKeyed(b: BlockRef)
    requires ChecksumFits(b.checksum)
    ensures BlockRefValue(b).Map? && TextKeyed(BlockRefValue(b).entries)
  {
    ChecksumEncodes(b.checksum);
    hide ChecksumValue;
  }

  /** Entry `i` is the field `key` with value `v`. */
  predicate EntryIs(es: seq<Entry>, i: nat, key: Name, v: Value) {
    i < |es| && es[i].key.Text? && es[i].key.bytes == Ascii(key) && es[i].value == v
  }

  lemma {:induction false} EntryFound(es: seq<Entry>, i: nat, key: Name, v: Value)
    requires TextKeyed(es) && EntryIs(es, i, key, v)
    ensures Field(Canon(Map(es)), key) == Some(Canon(v))
    ensures !v.Array? && !v.Map? ==> Canon(v) == v
  {
    hide TextKeyed, Find, Ascii;
    CanonFields(es);
    if !v.Array? && !v.Map? { LeafCanon(v); }
  }

  lemma {:induction false} BlockEntries(b: BlockRef)
    ensures var es := BlockRefValue(b).entries;
            && BlockRefValue(b) == Map(es) && EntryIs(es, 0, OFFSET, Integer(b.offset)) && EntryIs(es, 1, SIZE, Integer(b.size))
            && EntryIs(es, 2, CHECKSUM, ChecksumValue(b.checksum))
  {
    hide Ascii, ChecksumValue;
  }

  lemma {:induction false} BlockHeld(b: BlockRef)
    requires ChecksumFits(b.checksum)
    ensures HoldsBlock(Some(Canon(BlockRefValue(b))), b)
  {
    BlockKeyed(b);
    ChecksumHeld(b.checksum);
    BlockEntries(b);
    hide *;
    var es := BlockRefValue(b).entries;
    EntryFound(es, 0, OFFSET, Integer(b.offset));
    EntryFound(es, 1, SIZE, Integer(b.size));
    EntryFound(es, 2, CHECKSUM, ChecksumValue(b.checksum));
    BlockHolds(Canon(BlockRefValue(b)), b);
  }

  lemma {:induction false} BlockHolds(v: Value, b: BlockRef)
    requires Field(v, OFFSET) == Some(Integer(b.offset)) && Field(v, SIZE) == Some(Integer(b.size))
    requires HoldsChecksum(Field(v, CHECKSUM), b.checksum)
    ensures HoldsBlock(Some(v), b)
  {
    hide Field, HoldsChecksum;
  }

  lemma {:induction false} LeafCanon(v: Value)
    requires !v.Array? && !v.Map?
    ensures Canon(v) == v
  {
  }

  lemma {:induction false} VersionCanon()
    ensures Canon(VersionValue()) == Array([Integer(0), Integer(1)])
  {
    var items := [Integer(0), Integer(1)];
    assert items[1..] == [Integer(1)] && items[1..][1..] == [];
    assert CanonItems(items[1..]) == [Integer(1)] + CanonItems(items[1..][1..]);
  }

  lemma {:induction false} FooterKeyed(f: FooterPayload)
    requires FooterFits(f)
    ensures TextKeyed(FooterEntries(f))
  {
    BlockRefEncodes(f.indexRoot);
    BlockRefEncodes(f.metadata);
    if f.containerChecksum.Some? { ChecksumEncodes(f.containerChecksum.value); }
    FooterKeys(f);
    hide BlockRefValue, ChecksumValue;
  }

  lemma {:induction false} FooterEntryList(f: FooterPayload)
    ensures var es := FooterEntries(f);
            && EntryIs(es, 0, SCHEMA, Text(Ascii(FOOTER_SCHEMA))) && EntryIs(es, 1, FORMAT_VERSION, VersionValue())
            && EntryIs(es, 2, CONTAINER_ID, ByteString(f.containerId))
            && EntryIs(es, 3, INDEX_ROOT, BlockRefValue(f.indexRoot)) && EntryIs(es, 4, METADATA, BlockRefValue(f.metadata))
            && EntryIs(es, 5, FINAL_FILE_SIZE, Integer(f.finalFileSize)) && EntryIs(es, 6, FOOTER_FLAGS, Integer(f.footerFlags))
            && (f.containerChecksum.Some? ==> EntryIs(es, 7, CONTAINER_CHECKSUM, ChecksumValue(f.containerChecksum.value)))
  {
    hide Ascii, ChecksumValue, BlockRefValue, VersionValue;
  }

  /** Every field of the footer is found under its own key. */
  lemma {:induction false} FooterHeld(f: FooterPayload)
    requires FooterFits(f)
    ensures HoldsFooter(Canon(FooterValue(f)), f)
  {
    FooterKeyed(f);
    FooterEntryList(f);
    BlockHeld(f.indexRoot);
    BlockHeld(f.metadata);
    VersionCanon();
    var es := FooterEntries(f);
    assert FooterValue(f) == Map(es);
    LastField(f);
    hide *;
    EntryFound(es, 0, SCHEMA, Text(Ascii(FOOTER_SCHEMA)));
    EntryFound(es, 1, FORMAT_VERSION, VersionValue());
    EntryFound(es, 2, CONTAINER_ID, ByteString(f.containerId));
    EntryFound(es, 3, INDEX_ROOT, BlockRefValue(f.indexRoot));
    EntryFound(es, 4, METADATA, BlockRefValue(f.metadata));
    EntryFound(es, 5, FINAL_FILE_SIZE, Integer(f.finalFileSize));
    EntryFound(es, 6, FOOTER_FLAGS, Integer(f.footerFlags));
    FooterHolds(Canon(FooterValue(f)), f);
  }

  lemma {:induction false} FooterHolds(v: Value, f: FooterPayload)
    requires Field(v, SCHEMA) == Some(Text(Ascii(FOOTER_SCHEMA))) && Field(v, FORMAT_VERSION) == Some(Array([Integer(0), Integer(1)]))
    requires Field(v, CONTAINER_ID) == Some(ByteString(f.containerId))
    requires HoldsBlock(Field(v, INDEX_ROOT), f.indexRoot) && HoldsBlock(Field(v, METADATA), f.metadata)
    requires Field(v, FINAL_FILE_SIZE) == Some(Integer(f.finalFileSize)) && Field(v, FOOTER_FLAGS) == Some(Integer(f.footerFlags))
    requires match f.containerChecksum case None => Field(v, CONTAINER_CHECKSUM) == None case Some(c) => HoldsChecksum(Field(v, CONTAINER_CHECKSUM), c)
    ensures HoldsFooter(v, f)
  {
    hide Field, HoldsChecksum, HoldsBlock, Ascii;
  }

  /** The optional checksum: found exactly when there is one. */
  lemma {:induction false} LastField(f: FooterPayload)
    requires FooterFits(f)
    ensures var v := Field(Canon(FooterValue(f)), CONTAINER_CHECKSUM);
            match f.containerChecksum case None => v == None case Some(c) => HoldsChecksum(v, c)
  {
    FooterKeyed(f);
    FooterEntryList(f);
    NoContainerChecksum(f);
    var es := FooterEntries(f);
    assert FooterValue(f) == Map(es);
    match f.containerChecksum
    case None =>
      hide TextKeyed, FooterEntries, Find, Ascii;
      CanonFields(es);
    case Some(c) =>
      ChecksumHeld(c);
      hide *;
      EntryFound(es, 7, CONTAINER_CHECKSUM, ChecksumValue(c));
  }

  lemma {:induction false} NoContainerChecksum(f: FooterPayload)
    ensures f.containerChecksum.None? ==> forall i :: 0 <= i < |FooterEntries(f)| ==> FooterEntries(f)[i].key.bytes != Ascii(CONTAINER_CHECKSUM)
  {
    hide BlockRefValue, ChecksumValue, VersionValue;
  }

  /** An encoded footer that the reader accepts holds every field of the footer. */
  lemma {:induction false} FooterReadsBack(f: FooterPayload, limits: Limits)
    requires FooterFits(f) && TextsValid(FooterValue(f))
    ensures Encode(FooterValue(f)).Ok?
    ensures Validate(Encode(FooterValue(f)).value, limits).Ok? ==> HoldsFooter(Validate(Encode(FooterValue(f)).value, limits).value, f)
  {
    FooterEncodes(f);
    FooterHeld(f);
    hide *;
    EncodingIsAccepted(FooterValue(f), limits);
  }

  // ----- documents -----

  lemma {:induction false} DocumentKeyed(d: DocumentEntry)
    requires DocumentFits(d)
    ensures TextKeyed(DocumentEntries(d))
  {
    ChecksumEncodes(d.checksum);
    hide ChecksumValue;
    FirstLetters();
    EmptyMapEncodes();
  }

  lemma {:induction false} FirstLetters()
    ensures Ascii(DOC_ID_HASH)[0] == 100 && Ascii(BYTE_LENGTH)[0] == 98 && Ascii(CHUNK_START)[0] == 99
    ensures Ascii(FIRST_LINE)[0] == 102 && Ascii(LINE_COUNT)[0] == 108 && Ascii(CHECKSUM)[0] == 99 && Ascii(METADATA)[0] == 109
  {
  }

  lemma {:induction false} EmptyMapEncodes()
    ensures Encode(Map([])).Ok? && Canon(Map([])) == Map([])
  {
  }

  lemma {:induction false} DocumentEntryList(d: DocumentEntry)
    ensures var es := DocumentEntries(d);
            && EntryIs(es, 0, DOC_ID, Text(d.docId)) && EntryIs(es, 1, DOC_ID_HASH, ByteString(d.docIdHash))
            && EntryIs(es, 2, LOGICAL_OFFSET, Integer(d.logicalOffset)) && EntryIs(es, 3, BYTE_LENGTH, Integer(d.byteLength))
            && EntryIs(es, 4, FIRST_LINE, Integer(d.firstLine)) && EntryIs(es, 5, LINE_COUNT, Integer(d.lineCount))
            && EntryIs(es, 6, CHUNK_START, Integer(d.chunkStart)) && EntryIs(es, 7, CHUNK_END, Integer(d.chunkEnd))
            && EntryIs(es, 8, CHECKSUM, ChecksumValue(d.checksum)) && EntryIs(es, 9, METADATA, Map([]))
  {
    hide Ascii, ChecksumValue;
  }

  /** Every field of a document entry is found under its own key. */
  lemma {:induction false} DocumentHeld(d: DocumentEntry)
    requires DocumentFits(d)
    ensures HoldsDocument(Canon(DocumentValue(d)), d)
  {
    DocumentKeyed(d);
    DocumentEntryList(d);
    ChecksumHeld(d.checksum);
    EmptyMapEncodes();
    var es := DocumentEntries(d);
    assert DocumentValue(d) == Map(es);
    hide *;
    EntryFound(es, 0, DOC_ID, Text(d.docId));
    EntryFound(es, 1, DOC_ID_HASH, ByteString(d.docIdHash));
    EntryFound(es, 2, LOGICAL_OFFSET, Integer(d.logicalOffset));
    EntryFound(es, 3, BYTE_LENGTH, Integer(d.byteLength));
    EntryFound(es, 4, FIRST_LINE, Integer(d.firstLine));
    EntryFound(es, 5, LINE_COUNT, Integer(d.lineCount));
    EntryFound(es, 6, CHUNK_START, Integer(d.chunkStart));
    EntryFound(es, 7, CHUNK_END, Integer(d.chunkEnd));
    EntryFound(es, 8, CHECKSUM, ChecksumValue(d.checksum));
    EntryFound(es, 9, METADATA, Map([]));
    DocumentHolds(Canon(DocumentValue(d)), d);
  }

  lemma {:induction false} DocumentHolds(v: Value, d: DocumentEntry)
    requires Field(v, DOC_ID) == Some(Text(d.docId)) && Field(v, DOC_ID_HASH) == Some(ByteString(d.docIdHash))
    requires Field(v, LOGICAL_OFFSET) == Some(Integer(d.logicalOffset)) && Field(v, BYTE_LENGTH) == Some(Integer(d.byteLength))
    requires Field(v, FIRST_LINE) == Some(Integer(d.firstLine)) && Field(v, LINE_COUNT) == Some(Integer(d.lineCount))
    requires Field(v, CHUNK_START) == Some(Integer(d.chunkStart)) && Field(v, CHUNK_END) == Some(Integer(d.chunkEnd))
    requires HoldsChecksum(Field(v, CHECKSUM), d.checksum) && Field(v, METADATA) == Some(Map([]))
    ensures HoldsDocument(v, d)
  {
    hide Field, HoldsChecksum;
  }

  /** The documents, in order. */
  ghost predicate HoldsDocuments(v: Option<Value>, ds: seq<DocumentEntry>) {
    v.Some? && v.value.Array? && |v.value.items| == |ds| && forall i :: 0 <= i < |ds| ==> HoldsDocument(v.value.items[i], ds[i])
  }

  ghost predicate HoldsIndex(v: Value, containerId: seq<Byte>, ds: seq<DocumentEntry>) {
    && Field(v, SCHEMA) == Some(Text(Ascii(INDEX_SCHEMA)))
    && Field(v, FORMAT_VERSION) == Some(Array([Integer(0), Integer(1)]))
    && Field(v, CONTAINER_ID) == Some(ByteString(containerId))
    && HoldsDocuments(Field(v, DOCUMENTS), ds)
  }

  lemma {:induction false} DocumentsHeld(ds: seq<DocumentEntry>)
    requires AllFit(ds)
    ensures EncodeItems(DocumentValues(ds)).Ok?
    ensures |CanonItems(DocumentValues(ds))| == |ds|
    ensures forall i :: 0 <= i < |ds| ==> HoldsDocument(CanonItems(DocumentValues(ds))[i], ds[i])
    decreases |ds|
  {
    hide DocumentValue, HoldsDocument, Encode, Canon, DocumentFits;
    if ds != [] {
      assert DocumentFits(ds[0]);
      DocumentKeyed(ds[0]);
      DocumentEncodes(ds[0]);
      DocumentHeld(ds[0]);
      DocumentsHeld(ds[1..]);
      assert DocumentValues(ds)[1..] == DocumentValues(ds[1..]);
    }
  }

  lemma {:induction false} DocumentEncodes(d: DocumentEntry)
    requires TextKeyed(DocumentEntries(d))
    ensures Encode(DocumentValue(d)).Ok?
  {
    hide TextKeyed, Encode, DocumentEntries;
    TextMapEncodes(DocumentEntries(d));
  }

  lemma {:induction false} IndexKeyed(containerId: seq<Byte>, documents: seq<Value>)
    requires |containerId| == 16 && |documents| <= U64_MAX && EncodeItems(documents).Ok?
    ensures TextKeyed(IndexEntries(containerId, documents))
    ensures Encode(IndexValue(containerId, documents)).Ok?
  {
    assert Encode(VersionValue()).Ok? by { VersionEncodes(); }
    hide VersionValue, EncodeItems;
    assert TextKeyed(IndexEntries(containerId, documents));
    hide Encode;
    TextMapEncodes(IndexEntries(containerId, documents));
  }

  lemma {:induction false} VersionEncodes()
    ensures Encode(VersionValue()).Ok?
  {
    var items := [Integer(0), Integer(1)];
    assert items[1..] == [Integer(1)] && items[1..][1..] == [];
    assert EncodeItems(items[1..]).Ok?;
  }

  lemma {:induction false} IndexEntryList(containerId: seq<Byte>, documents: seq<Value>)
    ensures var es := IndexEntries(containerId, documents);
            && EntryIs(es, 0, SCHEMA, Text(Ascii(INDEX_SCHEMA))) && EntryIs(es, 1, FORMAT_VERSION, VersionValue())
            && EntryIs(es, 2, CONTAINER_ID, ByteString(containerId)) && EntryIs(es, 3, DOCUMENTS, Array(documents))
  {
    hide Ascii, VersionValue;
  }

  /** A document index that the reader accepts holds every document, field by field and in order. */
  lemma {:induction false} IndexReadsBack(containerId: seq<Byte>, ds: seq<DocumentEntry>, limits: Limits)
    requires |containerId| == 16 && |ds| <= U64_MAX && AllFit(ds) && TextsValid(IndexValue(containerId, DocumentValues(ds)))
    ensures Encode(IndexValue(containerId, DocumentValues(ds))).Ok?
    ensures var r := Validate(Encode(IndexValue(containerId, DocumentValues(ds))).value, limits); r.Ok? ==> HoldsIndex(r.value, containerId, ds)
  {
    hide *;
    var docs := DocumentValues(ds);
    DocumentsHeld(ds);
    IndexKeyed(containerId, docs);
    IndexEntryList(containerId, docs);
    VersionCanon();
    IndexHolds(containerId, docs, ds);
    EncodingIsAccepted(IndexValue(containerId, docs), limits);
  }

  lemma {:induction false} IndexHolds(containerId: seq<Byte>, docs: seq<Value>, ds: seq<DocumentEntry>)
    requires TextKeyed(IndexEntries(containerId, docs)) && |CanonItems(docs)| == |ds|
    requires forall i :: 0 <= i < |ds| ==> HoldsDocument(CanonItems(docs)[i], ds[i])
    ensures HoldsIndex(Canon(IndexValue(containerId, docs)), containerId, ds)
  {
    IndexEntryList(containerId, docs);
    VersionCanon();
    assert Canon(Array(docs)) == Array(CanonItems(docs));
    var es := IndexEntries(containerId, docs);
    hide HoldsDocument, Field, Canon, CanonItems, TextKeyed, Ascii, VersionValue, IndexEntries;
    EntryFound(es, 0, SCHEMA, Text(Ascii(INDEX_SCHEMA)));
    EntryFound(es, 1, FORMAT_VERSION, VersionValue());
    EntryFound(es, 2, CONTAINER_ID, ByteString(containerId));
    EntryFound(es, 3, DOCUMENTS, Array(docs));
  }
}
