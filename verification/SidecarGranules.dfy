/** The granule section of a sidecar: two fixed-size record layouts, bulk decoding and direct lookup. */
module SidecarGranules {
  import opened Bytes
  import opened LittleEndian
  import opened ChunkCache
  import opened Verification

  datatype GranuleEncoding = LegacyV1 | LineImpliedV2 {
    function RecordLen(): nat { if LegacyV1? then 56 else 20 }
  }

  /** An absent line number is written as the largest u64. */
  function OrMax(v: Option<U64>): U64 { if v.Some? then v.value else U64_MAX }

  function NoneIfMax(n: U64): Option<U64> { if n == U64_MAX then None else Some(n) }

  predicate FitsU32(n: int) { 0 <= n <= U32_MAX }

  /** The record can be written in this layout. */
  predicate Writable(g: SearchGranule, enc: GranuleEncoding) {
    enc.LineImpliedV2? ==> FitsU32(g.byteLength) && FitsU32(g.chunkStart) && FitsU32(g.chunkEnd - g.chunkStart)
  }

  function LegacyWords(g: SearchGranule): seq<nat> {
    [g.granuleId, g.logicalOffset, g.byteLength, g.chunkStart, g.chunkEnd, OrMax(g.firstLine), OrMax(g.lineCount)]
  }

  function CompactWords(g: SearchGranule): seq<nat>
    requires Writable(g, LineImpliedV2)
  {
    [g.byteLength, g.chunkStart, g.chunkEnd - g.chunkStart]
  }

  function Record(g: SearchGranule, enc: GranuleEncoding): (bytes: seq<Byte>)
    requires Writable(g, enc)
    ensures |bytes| == enc.RecordLen()
  {
    match enc
    case LegacyV1 => Words(LegacyWords(g), 8)
    case LineImpliedV2 => Le(g.logicalOffset, 8) + Words(CompactWords(g), 4)
  }

  /** `decode_granule_record` for the record at position `id`. */
  function DecodeRecord(bytes: seq<Byte>, id: U64, enc: GranuleEncoding): Result<SearchGranule> {
    if |bytes| != enc.RecordLen() then Err
    else match enc
      case LegacyV1 =>
        var f := Unwords(bytes, 8, 7);
        if Small(f, U64_MAX) && f[0] == id
        then Ok(SearchGranule(f[0], f[1], f[2], f[3], f[4], NoneIfMax(f[5]), NoneIfMax(f[6])))
        else Err
      case LineImpliedV2 =>
        var f := Unwords(bytes[8..], 4, 3);
        var offset := Unle(bytes[..8]);
        if Small(f, U32_MAX) && offset <= U64_MAX
        then Ok(SearchGranule(id, offset, f[0], f[1], f[1] + f[2], Some(id), Some(1)))
        else Err
  }

  predicate Small(f: seq<nat>, bound: nat) { forall i :: 0 <= i < |f| ==> f[i] <= bound }

  /** What a layout can represent at position `id`. */
  predicate Represents(g: SearchGranule, id: U64, enc: GranuleEncoding) {
    && g.granuleId == id
    && Writable(g, enc)
    && (enc.LegacyV1? ==> g.firstLine != Some(U64_MAX) && g.lineCount != Some(U64_MAX))
    && (enc.LineImpliedV2? ==> g.firstLine == Some(id) && g.lineCount == Some(1))
  }

  /** Reading never fails on the range of a word. */
  lemma {:induction false} WordsSmall(bytes: seq<Byte>, w: nat, count: nat, bound: nat)
    requires |bytes| == count * w && Pow256(w) == bound + 1
    ensures Small(Unwords(bytes, w, count), bound) && Words(Unwords(bytes, w, count), w) == bytes
  {
    hide Words, Unwords, Pow256;
    WordsOfUnwords(bytes, w, count);
  }

  /**
   * A record decodes to a granule exactly when it is the encoding of that granule and the
   * layout can represent it at this position.
   */
  lemma {:induction false} RecordExact(bytes: seq<Byte>, id: U64, enc: GranuleEncoding, g: SearchGranule)
    ensures DecodeRecord(bytes, id, enc) == Ok(g) <==> Represents(g, id, enc) && bytes == Record(g, enc)
  {
    match enc
    case LegacyV1 => LegacyExact(bytes, id, g);
    case LineImpliedV2 => CompactExact(bytes, id, g);
  }

  lemma {:induction false} LegacyExact(bytes: seq<Byte>, id: U64, g: SearchGranule)
    ensures DecodeRecord(bytes, id, LegacyV1) == Ok(g) <==> Represents(g, id, LegacyV1) && bytes == Record(g, LegacyV1)
  {
    hide Words, Unwords, Pow256;
    Widths();
    if |bytes| == 56 {
      WordsSmall(bytes, 8, 7, U64_MAX);
      var f := Unwords(bytes, 8, 7);
      if DecodeRecord(bytes, id, LegacyV1) == Ok(g) { assert f == LegacyWords(g); }
    }
    if Represents(g, id, LegacyV1) && bytes == Record(g, LegacyV1) {
      UnwordsOfWords(LegacyWords(g), 8);
    }
  }

  lemma {:induction false} CompactExact(bytes: seq<Byte>, id: U64, g: SearchGranule)
    ensures DecodeRecord(bytes, id, LineImpliedV2) == Ok(g) <==> Represents(g, id, LineImpliedV2) && bytes == Record(g, LineImpliedV2)
  {
    hide Words, Unwords, Pow256, Le, Unle;
    Widths();
    if |bytes| == 20 {
      WordsSmall(bytes[8..], 4, 3, U32_MAX);
      LeOfUnle(bytes[..8]);
      var f := Unwords(bytes[8..], 4, 3);
      assert bytes == bytes[..8] + bytes[8..];
      if DecodeRecord(bytes, id, LineImpliedV2) == Ok(g) { assert f == CompactWords(g); }
    }
    if Represents(g, id, LineImpliedV2) && bytes == Record(g, LineImpliedV2) {
      UnwordsOfWords(CompactWords(g), 4);
      UnleOfLe(g.logicalOffset, 8);
      assert bytes[..8] == Le(g.logicalOffset, 8) && bytes[8..] == Words(CompactWords(g), 4);
    }
  }

  // ----- the section -----

  ghost predicate AllWritable(gs: seq<SearchGranule>, enc: GranuleEncoding) { forall i :: 0 <= i < |gs| ==> Writable(gs[i], enc) }

  ghost function Records(gs: seq<SearchGranule>, enc: GranuleEncoding): (bytes: seq<Byte>)
    requires AllWritable(gs, enc)
    ensures |bytes| == |gs| * enc.RecordLen()
  {
    if gs == [] then []
    else
      Mul(|gs|, enc.RecordLen());
      Records(gs[..|gs| - 1], enc) + Record(gs[|gs| - 1], enc)
  }

  ghost function Section(gs: seq<SearchGranule>, enc: GranuleEncoding): (bytes: seq<Byte>)
    requires AllWritable(gs, enc)
    ensures |bytes| == 8 + |gs| * enc.RecordLen()
  {
    Le(|gs|, 8) + Records(gs, enc)
  }

  method EncodeGranules(gs: seq<SearchGranule>, enc: GranuleEncoding) returns (r: Result<seq<Byte>>)
    requires |gs| <= U64_MAX
    ensures r.Ok? <==> AllWritable(gs, enc)
    ensures r.Ok? ==> r.value == Section(gs, enc)
  {
    hide Words, Le, Record;
    var bytes := Le(|gs|, 8);
    assert gs[..0] == [] && bytes + Records([], enc) == bytes;
    for i := 0 to |gs|
      invariant AllWritable(gs[..i], enc) && bytes == Le(|gs|, 8) + Records(gs[..i], enc)
    {
      if !Writable(gs[i], enc) { return Err; }
      assert gs[..i + 1][..i] == gs[..i] && gs[..i + 1][i] == gs[i];
      assert AllWritable(gs[..i + 1], enc);
      bytes := bytes + Record(gs[i], enc);
    }
    assert gs[..|gs|] == gs;
    return Ok(bytes);
  }

  /** Where record `i` lies. */
  function RecordAt(bytes: seq<Byte>, i: nat, enc: GranuleEncoding): seq<Byte>
    requires 8 + (i + 1) * enc.RecordLen() <= |bytes|
  {
    bytes[8 + i * enc.RecordLen()..8 + i * enc.RecordLen() + enc.RecordLen()]
  }

  lemma {:induction false} RecordFits(i: nat, n: nat, enc: GranuleEncoding)
    requires i < n
    ensures (i + 1) * enc.RecordLen() <= n * enc.RecordLen() && (i + 1) * enc.RecordLen() == i * enc.RecordLen() + enc.RecordLen()
  {
  }

  ghost predicate Represented(gs: seq<SearchGranule>, enc: GranuleEncoding) {
    |gs| <= U64_MAX && forall i :: 0 <= i < |gs| ==> Represents(gs[i], i, enc)
  }

  /** The section's bytes, record by record. */
  lemma {:induction false} RecordsAt(gs: seq<SearchGranule>, enc: GranuleEncoding, i: nat)
    requires AllWritable(gs, enc) && i < |gs|
    ensures (i + 1) * enc.RecordLen() <= |gs| * enc.RecordLen()
    ensures Records(gs, enc)[i * enc.RecordLen()..i * enc.RecordLen() + enc.RecordLen()] == Record(gs[i], enc)
    decreases |gs|
  {
    hide Record;
    var n := |gs| - 1;
    RecordFits(i, |gs|, enc);
    Mul(|gs|, enc.RecordLen());
    var front := Records(gs[..n], enc);
    assert Records(gs, enc) == front + Record(gs[n], enc);
    if i < n {
      RecordsAt(gs[..n], enc, i);
      RecordFits(i, n, enc);
      assert gs[..n][i] == gs[i];
    }
  }

  lemma {:induction false} AfterPrefix(p: seq<Byte>, s: seq<Byte>, a: nat, b: nat)
    requires a <= b <= |s|
    ensures (p + s)[|p| + a..|p| + b] == s[a..b]
  {
    SliceOfSlice(p + s, |p|, |p + s|, |p| + a, |p| + b);
    assert (p + s)[|p|..|p + s|] == s;
  }

  lemma {:induction false} SectionRecord(gs: seq<SearchGranule>, enc: GranuleEncoding, i: nat)
    requires AllWritable(gs, enc) && i < |gs|
    ensures 8 + (i + 1) * enc.RecordLen() <= |Section(gs, enc)|
    ensures RecordAt(Section(gs, enc), i, enc) == Record(gs[i], enc)
  {
    hide Record, Records, Le;
    RecordsAt(gs, enc, i);
    RecordFits(i, |gs|, enc);
    AfterPrefix(Le(|gs|, 8), Records(gs, enc), i * enc.RecordLen(), i * enc.RecordLen() + enc.RecordLen());
  }

  /** Bytes made of the count and the records of `gs` are the section of `gs`. */
  lemma {:induction false} SectionFrom(bytes: seq<Byte>, gs: seq<SearchGranule>, enc: GranuleEncoding, n: nat)
    requires n <= |gs| && AllWritable(gs, enc) && 8 + |gs| * enc.RecordLen() <= |bytes|
    requires forall i :: 0 <= i < |gs| ==> RecordIs(bytes, i, enc, gs[i])
    ensures AllWritable(gs[..n], enc) && n * enc.RecordLen() <= |gs| * enc.RecordLen()
    ensures bytes[8..8 + n * enc.RecordLen()] == Records(gs[..n], enc)
    decreases n
  {
    hide Record, Records;
    NoRecords(enc);
    if n > 0 {
      RecordFits(n - 1, |gs|, enc);
      SectionFrom(bytes, gs, enc, n - 1);
      assert RecordIs(bytes, n - 1, enc, gs[n - 1]);
      RecordsSnoc(gs, enc, n - 1);
      var a, b := 8 + (n - 1) * enc.RecordLen(), 8 + n * enc.RecordLen();
      assert bytes[8..b] == bytes[8..a] + bytes[a..b];
    } else {
      assert gs[..0] == [] && bytes[8..8] == [];
    }
  }

  ghost predicate RecordIs(bytes: seq<Byte>, i: nat, enc: GranuleEncoding, g: SearchGranule) {
    8 + (i + 1) * enc.RecordLen() <= |bytes| && Writable(g, enc) && RecordAt(bytes, i, enc) == Record(g, enc)
  }

  lemma {:induction false} NoRecords(enc: GranuleEncoding)
    ensures Records([], enc) == []
  {
  }

  lemma {:induction false} RecordsSnoc(gs: seq<SearchGranule>, enc: GranuleEncoding, n: nat)
    requires n < |gs| && AllWritable(gs, enc)
    ensures AllWritable(gs[..n], enc) && AllWritable(gs[..n + 1], enc)
    ensures Records(gs[..n + 1], enc) == Records(gs[..n], enc) + Record(gs[n], enc)
  {
    hide Record;
    assert gs[..n + 1][..n] == gs[..n] && gs[..n + 1][n] == gs[n];
  }

  // ----- decoding -----

  /** The bytes are the section of `gs`, and every record says what `gs` says. */
  ghost predicate SectionOf(bytes: seq<Byte>, enc: GranuleEncoding, gs: seq<SearchGranule>) {
    Represented(gs, enc) && AllWritable(gs, enc) && bytes == Section(gs, enc)
  }

  ghost predicate DecodesAt(bytes: seq<Byte>, enc: GranuleEncoding, i: nat, g: SearchGranule) {
    i <= U64_MAX && 8 + (i + 1) * enc.RecordLen() <= |bytes| && DecodeRecord(RecordAt(bytes, i, enc), i, enc) == Ok(g)
  }

  /** Each record of a section decodes, alone, to its granule. */
  lemma {:induction false} LookupAgrees(bytes: seq<Byte>, enc: GranuleEncoding, gs: seq<SearchGranule>, i: nat)
    requires SectionOf(bytes, enc, gs) && i < |gs|
    ensures DecodesAt(bytes, enc, i, gs[i])
  {
    hide Record, Section, DecodeRecord, RecordAt;
    SectionRecord(gs, enc, i);
    assert Represents(gs[i], i, enc);
    RecordExact(RecordAt(bytes, i, enc), i, enc, gs[i]);
  }

  /** The first eight bytes are the number of granules. */
  lemma {:induction false} SectionCount(bytes: seq<Byte>, enc: GranuleEncoding, gs: seq<SearchGranule>)
    requires SectionOf(bytes, enc, gs)
    ensures |bytes| >= 8 && Unle(bytes[..8]) == |gs| && |bytes| == 8 + |gs| * enc.RecordLen()
  {
    hide Records, Pow256, Le, Unle;
    Widths();
    UnleOfLe(|gs|, 8);
    assert bytes[..8] == Le(|gs|, 8);
  }

  /** Records that all decode make up the section of what they decode to. */
  lemma {:induction false} DecodedIsSection(bytes: seq<Byte>, enc: GranuleEncoding, gs: seq<SearchGranule>)
    requires |gs| <= U64_MAX && |bytes| == 8 + |gs| * enc.RecordLen() && Unle(bytes[..8]) == |gs|
    requires forall i :: 0 <= i < |gs| ==> DecodesAt(bytes, enc, i, gs[i])
    ensures SectionOf(bytes, enc, gs)
  {
    hide Record, Records, DecodeRecord, RecordAt, Le, Unle, Represents;
    forall i | 0 <= i < |gs| ensures Represents(gs[i], i, enc) && Writable(gs[i], enc) && RecordIs(bytes, i, enc, gs[i]) {
      assert DecodesAt(bytes, enc, i, gs[i]);
      RecordExact(RecordAt(bytes, i, enc), i, enc, gs[i]);
      RepresentsWritable(gs[i], i, enc);
    }
    SectionFrom(bytes, gs, enc, |gs|);
    assert gs[..|gs|] == gs;
    LeOfUnle(bytes[..8]);
    assert bytes == bytes[..8] + bytes[8..] && bytes[8..] == bytes[8..8 + |gs| * enc.RecordLen()];
  }

  lemma {:induction false} RepresentsWritable(g: SearchGranule, id: U64, enc: GranuleEncoding)
    requires Represents(g, id, enc)
    ensures Writable(g, enc)
  {
  }

  /** Bulk decoding finds the one list the bytes are the section of, if there is one within the limit. */
  method DecodeGranules(bytes: seq<Byte>, enc: GranuleEncoding, maxCount: U64) returns (r: Result<seq<SearchGranule>>)
    ensures r.Ok? ==> SectionOf(bytes, enc, r.value) && |r.value| <= maxCount
    ensures r.Err? ==> forall gs :: SectionOf(bytes, enc, gs) ==> |gs| > maxCount || |bytes| > U64_MAX
  {
    hide SectionOf, DecodeRecord, RecordAt, Unle, DecodesAt;
    if |bytes| < 8 { ShortSection(bytes, enc); return Err; }
    forall gs | SectionOf(bytes, enc, gs) ensures Unle(bytes[..8]) == |gs| && |bytes| == 8 + |gs| * enc.RecordLen() { SectionCount(bytes, enc, gs); }
    var count := Unle(bytes[..8]);
    if count > maxCount { return Err; }
    var expected := count * enc.RecordLen() + 8;
    if expected > U64_MAX { return Err; }
    if expected != |bytes| { return Err; }
    var gs: seq<SearchGranule> := [];
    for i := 0 to count
      invariant |gs| == i && forall k :: 0 <= k < i ==> DecodesAt(bytes, enc, k, gs[k])
    {
      RecordFits(i, count, enc);
      var g := DecodeRecord(RecordAt(bytes, i, enc), i, enc);
      if g.Err? { BadRecord(bytes, enc, i); return Err; }
      RecordDecodes(bytes, enc, i, g.value);
      gs := gs + [g.value];
    }
    DecodedIsSection(bytes, enc, gs);
    return Ok(gs);
  }

  lemma {:induction false} RecordDecodes(bytes: seq<Byte>, enc: GranuleEncoding, i: U64, g: SearchGranule)
    requires 8 + (i + 1) * enc.RecordLen() <= |bytes| && DecodeRecord(RecordAt(bytes, i, enc), i, enc) == Ok(g)
    ensures DecodesAt(bytes, enc, i, g)
  {
  }

  lemma {:induction false} ShortSection(bytes: seq<Byte>, enc: GranuleEncoding)
    requires |bytes| < 8
    ensures forall gs :: !SectionOf(bytes, enc, gs)
  {
    forall gs ensures !SectionOf(bytes, enc, gs) { if SectionOf(bytes, enc, gs) { SectionCount(bytes, enc, gs); } }
  }

  lemma {:induction false} BadRecord(bytes: seq<Byte>, enc: GranuleEncoding, i: U64)
    requires 8 + (i + 1) * enc.RecordLen() <= |bytes| && DecodeRecord(RecordAt(bytes, i, enc), i, enc).Err?
    ensures forall gs :: SectionOf(bytes, enc, gs) ==> |gs| <= i
  {
    forall gs | SectionOf(bytes, enc, gs) ensures |gs| <= i { if i < |gs| { LookupAgrees(bytes, enc, gs, i); } }
  }

  /** What the builder encodes decodes to the same granules, exactly when the layout represents them. */
  lemma {:induction false} GranulesRoundTrip(gs: seq<SearchGranule>, hs: seq<SearchGranule>, enc: GranuleEncoding)
    requires AllWritable(gs, enc) && |gs| <= U64_MAX && SectionOf(Section(gs, enc), enc, hs)
    ensures Represented(gs, enc) <==> hs == gs
  {
    hide Section, DecodesAt, Represents;
    if Represented(gs, enc) {
      SectionCount(Section(gs, enc), enc, hs);
      SectionCount(Section(gs, enc), enc, gs);
      forall i | 0 <= i < |gs| ensures hs[i] == gs[i] {
        LookupAgrees(Section(gs, enc), enc, gs, i);
        LookupAgrees(Section(gs, enc), enc, hs, i);
        SameRecord(Section(gs, enc), enc, i, gs[i], hs[i]);
      }
    }
  }

  lemma {:induction false} SameRecord(bytes: seq<Byte>, enc: GranuleEncoding, i: nat, g: SearchGranule, h: SearchGranule)
    requires DecodesAt(bytes, enc, i, g) && DecodesAt(bytes, enc, i, h)
    ensures g == h
  {
  }

  /** Granules the line builder makes are represented by the compact layout, when its widths suffice. */
  lemma {:induction false} LineGranulesRepresented(gs: seq<SearchGranule>)
    requires |gs| <= U64_MAX
    ensures Represented(gs, LineImpliedV2) <==>
              forall i :: 0 <= i < |gs| ==>
                && gs[i].granuleId == i && gs[i].firstLine == Some(i) && gs[i].lineCount == Some(1)
                && FitsU32(gs[i].byteLength) && FitsU32(gs[i].chunkStart) && FitsU32(gs[i].chunkEnd - gs[i].chunkStart)
  {
    if Represented(gs, LineImpliedV2) { assert forall i :: 0 <= i < |gs| ==> Represents(gs[i], i, LineImpliedV2); }
  }

  // ----- direct lookup in a file -----

  /** Where record `id` of a section lies in a file, whatever the other records hold. */
  function FileRecord(source: seq<Byte>, base: nat, id: nat, enc: GranuleEncoding): Option<seq<Byte>> {
    var offset := base + 8 + id * enc.RecordLen();
    if offset + enc.RecordLen() <= |source| then Some(source[offset..offset + enc.RecordLen()]) else None
  }

  /** One record of an untrusted section, decoded alone. */
  function FileGranule(source: seq<Byte>, base: nat, id: U64, enc: GranuleEncoding): Result<SearchGranule> {
    match FileRecord(source, base, id, enc)
    case None => Err
    case Some(bytes) => DecodeRecord(bytes, id, enc)
  }

  /** `fetch_granule`: succeeds exactly when this one record decodes and passes span validation. */
  method FetchGranule(source: seq<Byte>, base: nat, enc: GranuleEncoding, granuleCount: U64, c: Container, id: U64)
    returns (r: Result<SearchGranule>)
    requires c.Valid() && |source| <= U64_MAX
    ensures r.Ok? <==> id < granuleCount && FileGranule(source, base, id, enc).Ok? && GranuleOk(c, FileGranule(source, base, id, enc).value)
    ensures r.Ok? ==> r == FileGranule(source, base, id, enc) && r.value.granuleId == id
  {
    hide DecodeRecord, GranuleOk;
    if id >= granuleCount { return Err; }
    var offset := id * enc.RecordLen() + 8 + base;
    if offset > U64_MAX { return Err; }
    if offset + enc.RecordLen() > |source| { return Err; }
    var bytes := source[offset..offset + enc.RecordLen()];
    var g := DecodeRecord(bytes, id, enc);
    if g.Err? { return Err; }
    FetchedId(bytes, id, enc);
    if g.value.granuleId != id { return Err; }
    var ok := ValidateGranuleChunkSpan(c, g.value);
    if !ok { return Err; }
    return g;
  }

  /** Where bulk decoding accepts the section, direct lookup decodes the same element. */
  lemma {:induction false} FetchAgrees(source: seq<Byte>, base: nat, enc: GranuleEncoding, gs: seq<SearchGranule>, id: U64)
    requires base + 8 + |gs| * enc.RecordLen() <= |source| && id < |gs|
    requires SectionOf(source[base..base + 8 + |gs| * enc.RecordLen()], enc, gs)
    ensures FileGranule(source, base, id, enc) == Ok(gs[id])
  {
    hide SectionOf, DecodeRecord;
    RecordFits(id, |gs|, enc);
    var end, offset := base + 8 + |gs| * enc.RecordLen(), base + 8 + id * enc.RecordLen();
    LookupAgrees(source[base..end], enc, gs, id);
    SliceOfSlice(source, base, end, offset, offset + enc.RecordLen());
  }

  lemma {:induction false} FetchedId(bytes: seq<Byte>, id: U64, enc: GranuleEncoding)
    requires DecodeRecord(bytes, id, enc).Ok?
    ensures DecodeRecord(bytes, id, enc).value.granuleId == id
  {
    RecordExact(bytes, id, enc, DecodeRecord(bytes, id, enc).value);
  }
}
