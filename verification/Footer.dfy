/** The footer payload and the fixed point between its size and the size it records. */
module Footer {
  import opened Bytes
  import opened Cbor
  import opened CborCanon
  import opened CborCodec
  import opened Schema

  datatype BlockRef = BlockRef(offset: U64, size: U64, checksum: Checksum)

  datatype FooterPayload = FooterPayload(
    containerId: seq<Byte>, indexRoot: BlockRef, metadata: BlockRef,
    finalFileSize: U64, footerFlags: U64, containerChecksum: Option<Checksum>)

  const FOOTER_TRAILER_LEN: nat := 64

  predicate FooterFits(f: FooterPayload) {
    && |f.containerId| == 16
    && ChecksumFits(f.indexRoot.checksum) && ChecksumFits(f.metadata.checksum)
    && (f.containerChecksum.Some? ==> ChecksumFits(f.containerChecksum.value))
  }

  function BlockRefValue(b: BlockRef): Value {
    Map([TextPair("offset", Integer(b.offset)), TextPair("size", Integer(b.size)), TextPair("checksum", ChecksumValue(b.checksum))])
  }

  function FooterEntries(f: FooterPayload): seq<Entry> {
    [TextPair("schema", Text(Ascii("qzt.footer.v1"))),
     TextPair("format_version", VersionValue()),
     TextPair("container_id", ByteString(f.containerId)),
     TextPair("index_root", BlockRefValue(f.indexRoot)),
     TextPair("metadata", BlockRefValue(f.metadata)),
     TextPair("final_file_size", Integer(f.finalFileSize)),
     TextPair("footer_flags", Integer(f.footerFlags))]
    + if f.containerChecksum.None? then [] else [TextPair("container_checksum", ChecksumValue(f.containerChecksum.value))]
  }

  /** `FooterPayload::encode` */
  function FooterValue(f: FooterPayload): Value { Map(FooterEntries(f)) }

  // ----- maps with distinct text keys always encode -----

  ghost predicate KeysDistinct(pairs: seq<Pair>) {
    forall i, j :: 0 <= i < j < |pairs| ==> pairs[i].0 != pairs[j].0
  }

  ghost predicate NoKey(pairs: seq<Pair>, key: seq<Byte>) {
    forall i :: 0 <= i < |pairs| ==> pairs[i].0 != key
  }

  lemma {:induction false} InsertDistinct(p: Pair, pairs: seq<Pair>)
    requires KeysDistinct(pairs) && NoKey(pairs, p.0)
    ensures KeysDistinct(Insert(p, pairs))
    ensures forall key :: NoKey(pairs, key) && key != p.0 ==> NoKey(Insert(p, pairs), key)
    decreases |pairs|
  {
    hide Less;
    if pairs != [] && Less(pairs[0].0, p.0) {
      InsertDistinct(p, pairs[1..]);
      var rest := Insert(p, pairs[1..]);
      assert NoKey(pairs[1..], pairs[0].0);
      assert NoKey(rest, pairs[0].0);
      forall key | NoKey(pairs, key) && key != p.0 ensures NoKey(Insert(p, pairs), key) {
        assert NoKey(pairs[1..], key);
        assert pairs[0].0 != key;
      }
    }
  }

  lemma {:induction false} SortDistinct(pairs: seq<Pair>)
    requires KeysDistinct(pairs)
    ensures KeysDistinct(Sort(pairs))
    ensures forall key :: NoKey(pairs, key) ==> NoKey(Sort(pairs), key)
    decreases |pairs|
  {
    if pairs != [] {
      SortDistinct(pairs[1..]);
      assert NoKey(pairs[1..], pairs[0].0);
      InsertDistinct(pairs[0], Sort(pairs[1..]));
      forall key | NoKey(pairs, key) ensures NoKey(Sort(pairs), key) {
        assert pairs[0].0 != key;
        assert NoKey(pairs[1..], key);
      }
    }
  }

  ghost predicate TextKeyed(es: seq<Entry>) {
    && |es| <= U64_MAX
    && (forall i :: 0 <= i < |es| ==> es[i].key.Text? && |es[i].key.bytes| <= U64_MAX && Encode(es[i].value).Ok?)
    && (forall i, j :: 0 <= i < j < |es| ==> es[i].key.bytes != es[j].key.bytes)
  }

  lemma {:induction false} TextKeyInjective(a: seq<Byte>, b: seq<Byte>)
    requires |a| <= U64_MAX && |b| <= U64_MAX && Head(3, |a|) + a == Head(3, |b|) + b
    ensures a == b
  {
    var s := Head(3, |a|) + a;
    assert s[0..HeadLen(|a|)] == Head(3, |a|) && s[0..HeadLen(|b|)] == Head(3, |b|);
    ReadHead(s, 0, 3, |a|);
    ReadHead(s, 0, 3, |b|);
    assert a == s[HeadLen(|a|)..] == b;
  }

  lemma {:induction false} TextKeyedPairs(es: seq<Entry>)
    requires forall i :: 0 <= i < |es| ==> es[i].key.Text? && |es[i].key.bytes| <= U64_MAX && Encode(es[i].value).Ok?
    ensures EncodeEntries(es).Ok?
    ensures forall i :: 0 <= i < |es| ==> EncodeEntries(es).value[i].0 == Head(3, |es[i].key.bytes|) + es[i].key.bytes
    decreases |es|
  {
    hide Head;
    if es != [] {
      TextKeyedPairs(es[1..]);
      assert Encode(es[0].key) == Ok(Head(3, |es[0].key.bytes|) + es[0].key.bytes);
      assert EncodeEntry(es[0]).Ok?;
      assert EncodeEntries(es).Ok? && EncodeEntries(es).value[0] == EncodeEntry(es[0]).value;
      hide Encode;
      forall i | 0 <= i < |es|
        ensures EncodeEntries(es).value[i].0 == Head(3, |es[i].key.bytes|) + es[i].key.bytes
      {
        if i > 0 { assert es[i] == es[1..][i - 1] && EncodeEntries(es).value[i] == EncodeEntries(es[1..]).value[i - 1]; }
      }
    }
  }

  /** A map keyed by distinct texts, with encodable values, encodes. */
  lemma {:induction false} TextMapEncodes(es: seq<Entry>)
    requires TextKeyed(es)
    ensures Encode(Map(es)).Ok?
  {
    TextKeyedPairs(es);
    var pairs := EncodeEntries(es).value;
    hide EncodeEntries;
    hide Head;
    forall i, j | 0 <= i < j < |pairs| ensures pairs[i].0 != pairs[j].0 {
      if pairs[i].0 == pairs[j].0 { TextKeyInjective(es[i].key.bytes, es[j].key.bytes); }
    }
    SortDistinct(pairs);
    var sorted := Sort(pairs);
    forall i | 0 <= i < |sorted| - 1 ensures Distinct(sorted, i) { assert sorted[i].0 != sorted[i + 1].0; }
  }

  lemma {:induction false} ChecksumEncodes(c: Checksum)
    requires ChecksumFits(c)
    ensures Encode(ChecksumValue(c)).Ok?
  {
    var es := [TextPair("algorithm", Text(c.algorithm)), TextPair("value", ByteString(c.value))];
    assert TextKeyed(es);
    hide Encode;
    TextMapEncodes(es);
  }

  lemma {:induction false} BlockRefEncodes(b: BlockRef)
    requires ChecksumFits(b.checksum)
    ensures Encode(BlockRefValue(b)).Ok?
  {
    ChecksumEncodes(b.checksum);
    hide ChecksumValue;
    var es := [TextPair("offset", Integer(b.offset)), TextPair("size", Integer(b.size)), TextPair("checksum", ChecksumValue(b.checksum))];
    assert TextKeyed(es);
    hide Encode;
    TextMapEncodes(es);
  }

  lemma {:induction false} FooterEncodes(f: FooterPayload)
    requires FooterFits(f)
    ensures Encode(FooterValue(f)).Ok?
  {
    BlockRefEncodes(f.indexRoot);
    BlockRefEncodes(f.metadata);
    if f.containerChecksum.Some? { ChecksumEncodes(f.containerChecksum.value); }
    var es := FooterEntries(f);
    FooterKeys(f);
    assert TextKeyed(es);
    hide Encode;
    hide FooterEntries;
    TextMapEncodes(es);
  }

  lemma {:induction false} FooterKeys(f: FooterPayload)
    ensures var es := FooterEntries(f);
            && (forall i :: 0 <= i < |es| ==> es[i].key.Text? && |es[i].key.bytes| <= U64_MAX)
            && (forall i, j :: 0 <= i < j < |es| ==> es[i].key.bytes != es[j].key.bytes)
  {
    assert Ascii("container_id")[0] == 99 && Ascii("footer_flags")[0] == 102;
    hide BlockRefValue;
    hide ChecksumValue;
    hide VersionValue;
  }

  // ----- the size fixed point -----

  /** Encoded bytes apart from the head of `final_file_size`. */
  ghost function FixedPart(f: FooterPayload): nat
    requires FooterFits(f)
  {
    FooterEncodes(f);
    EncodeLength(FooterValue(f));
    SizeFieldCounted(f);
    |Encode(FooterValue(f)).value| - HeadLen(f.finalFileSize)
  }

  lemma {:induction false} SizeFieldCounted(f: FooterPayload)
    requires FooterFits(f) && Measurable(FooterValue(f))
    ensures EntriesMeasurable(FooterEntries(f)) && |FooterEntries(f)| <= 8
    ensures FooterEntries(f)[5] == TextPair("final_file_size", Integer(f.finalFileSize))
    ensures Measure(FooterValue(f)).encoded >= HeadLen(f.finalFileSize)
  {
    var es := FooterEntries(f);
    assert EntriesMeasurable(es);
    hide Measurable;
    hide BlockRefValue;
    hide ChecksumValue;
    hide VersionValue;
    SizeEntry(f.finalFileSize);
    hide TextPair;
    MeasureAtLeast(es, 5);
    MapMeasure(es);
    hide FooterEntries;
  }

  lemma {:induction false} SizeEntry(size: U64)
    ensures var e := TextPair("final_file_size", Integer(size));
            && Measurable(e.key) && Measurable(e.value)
            && MeasureEntry(e).encoded == 16 + HeadLen(size)
  {
    hide TextPair;
    FieldMeasure("final_file_size", Integer(size));
    ShortKeyMeasure("final_file_size", Integer(size));
  }

  lemma {:induction false} MeasureAtLeast(es: seq<Entry>, k: nat)
    requires EntriesMeasurable(es) && k < |es|
    ensures MeasureEntries(es).encoded >= MeasureEntry(es[k]).encoded
    decreases |es|
  {
    hide MeasureEntry;
    hide Measurable;
    if k > 0 { MeasureAtLeast(es[1..], k - 1); }
  }

  /** Changing the recorded size changes only the length of its own head. */
  lemma {:induction false} FixedPartConstant(f: FooterPayload, size: U64)
    requires FooterFits(f)
    ensures FooterFits(f.(finalFileSize := size)) && FixedPart(f.(finalFileSize := size)) == FixedPart(f)
  {
    var g := f.(finalFileSize := size);
    FooterEncodes(f);
    FooterEncodes(g);
    EncodeLength(FooterValue(f));
    EncodeLength(FooterValue(g));
    SizeFieldCounted(f);
    SizeFieldCounted(g);
    SizeEntry(f.finalFileSize);
    SizeEntry(size);
    FooterUpdate(f, size);
    hide FooterEntries;
    hide Measurable;
    hide Measure;
    hide MeasureEntry;
    hide Encode;
    hide TextPair;
    MeasureUpdate(FooterEntries(f), 5, TextPair("final_file_size", Integer(size)));
    MapMeasure(FooterEntries(f));
    MapMeasure(FooterEntries(g));
  }

  lemma {:induction false} FooterUpdate(f: FooterPayload, size: U64)
    ensures |FooterEntries(f)| > 5
    ensures FooterEntries(f.(finalFileSize := size)) == FooterEntries(f)[5 := TextPair("final_file_size", Integer(size))]
  {
    hide TextPair;
    hide BlockRefValue;
    hide ChecksumValue;
    hide VersionValue;
  }

  /** Head lengths take five values; their rank bounds the number of changes. */
  function Rank(headLen: nat): nat {
    if headLen == 1 then 1 else if headLen == 2 then 2 else if headLen == 3 then 3 else if headLen == 5 then 4 else 5
  }

  lemma {:induction false} HeadLenMonotone(a: U64, b: U64)
    requires a <= b
    ensures HeadLen(a) <= HeadLen(b) && Rank(HeadLen(a)) <= Rank(HeadLen(b))
    ensures HeadLen(a) < HeadLen(b) ==> Rank(HeadLen(a)) < Rank(HeadLen(b))
  {
  }

  /** `candidate.encode()?.len()`, which splits into a constant and the head of the recorded size. */
  method EncodedFooterSize(template: FooterPayload, size: U64) returns (r: Result<nat>)
    requires FooterFits(template)
    ensures r.Ok? && r.value == FixedPart(template) + HeadLen(size)
    ensures var e := Encode(FooterValue(template.(finalFileSize := size))); e.Ok? && r.value == |e.value|
  {
    var candidate := template.(finalFileSize := size);
    FixedPartConstant(template, size);
    FooterEncodes(candidate);
    hide Encode;
    hide FooterValue;
    var bytes := EncodeValue(FooterValue(candidate), []);
    assert [] + Encode(FooterValue(candidate)).value == Encode(FooterValue(candidate)).value;
    return Ok(|bytes.value|);
  }

  /**
   * Eight rounds always suffice: the payload found records the size of the
   * file it ends, and failure means only that the file would pass u64.
   */
  method FixedPointFooterPayload(template: FooterPayload, footerOffset: U64) returns (r: Result<FooterPayload>)
    requires FooterFits(template)
    ensures r.Ok? ==> r.value == template.(finalFileSize := r.value.finalFileSize)
    ensures r.Ok? ==> Encode(FooterValue(r.value)).Ok?
    ensures r.Ok? ==> r.value.finalFileSize == footerOffset + |Encode(FooterValue(r.value)).value| + 64
    ensures r.Err? <==> footerOffset + FixedPart(template) + 9 + 64 > U64_MAX
  {
    hide Encode;
    hide FooterValue;
    hide FixedPart;
    ghost var base := footerOffset + FixedPart(template) + FOOTER_TRAILER_LEN;
    var size: U64, rounds, done := 0, 0, false;
    r := Err;
    while rounds < 8 && !done
      invariant 0 <= rounds <= 8
      invariant rounds == 0 && !done ==> size == 0
      invariant rounds > 0 && !done ==> exists h: nat :: size == base + h && HeadValue(h) && h <= HeadLen(size) && Rank(h) >= rounds
      invariant done && r.Ok? ==> base + 9 <= U64_MAX
      invariant done && r.Err? ==> base + 9 > U64_MAX
      invariant done && r.Ok? ==> r.value == template.(finalFileSize := size)
      invariant done && r.Ok? ==> size == base + HeadLen(size)
      decreases 8 - rounds, !done
    {
      var encoded := EncodedFooterSize(template, size);
      var next := footerOffset + encoded.value + FOOTER_TRAILER_LEN;
      if next > U64_MAX {
        r, done := Err, true;
      } else if next == size {
        SettledFits(base, size);
        r, done := Ok(template.(finalFileSize := size)), true;
      } else {
        RoundAdvances(base, size, rounds);
        size := next;
      }
      rounds := rounds + 1;
    }
    if r.Ok? {
      var final := EncodedFooterSize(template, size);
      FooterEncodes(r.value);
    }
  }

  predicate HeadValue(h: nat) { h == 1 || h == 2 || h == 3 || h == 5 || h == 9 }

  lemma {:induction false} SettledFits(base: nat, size: U64)
    requires size == base + HeadLen(size)
    ensures base + 9 <= U64_MAX
  {
  }

  /** A round that does not settle moves to a strictly longer head. */
  lemma {:induction false} RoundAdvances(base: nat, size: U64, rounds: nat)
    requires base + HeadLen(size) <= U64_MAX && base + HeadLen(size) != size
    requires rounds == 0 ==> size == 0
    requires rounds > 0 ==> exists h: nat :: size == base + h && HeadValue(h) && h <= HeadLen(size) && Rank(h) >= rounds
    ensures var next := base + HeadLen(size);
            exists h: nat :: next == base + h && HeadValue(h) && h <= HeadLen(next) && Rank(h) >= rounds + 1
  {
    var h' := HeadLen(size);
    var next := base + h';
    if rounds > 0 {
      var h: nat :| size == base + h && HeadValue(h) && h <= HeadLen(size) && Rank(h) >= rounds;
      assert h < h';
    }
    HeadLenMonotone(size, next);
    assert next == base + h' && HeadValue(h') && h' <= HeadLen(next) && Rank(h') >= rounds + 1;
  }
}
