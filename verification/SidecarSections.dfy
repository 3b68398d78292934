/** Whole-sidecar checks: the size pre-check before building, and the dictionary checks before lazy lookup. */
module SidecarSections {
  import opened Bytes
  import opened LittleEndian
  import opened Varint
  import opened Delta
  import opened KeySets
  import opened Postings
  import opened IndexParts
  import opened SidecarTerms
  import opened SidecarPostings
  import opened Verification
  import opened PostingStream
  import opened LineIndex
  import opened Lines
  import Tokens
  import Ngrams
  import ChunkCache
  import G = SidecarGranules

  // ----- the size pre-check -----

  /** Bytes of the three data sections, with compact terms. */
  ghost function SectionsSize(granules: nat, ts: seq<Term>, postings: seq<seq<U64>>, enc: G.GranuleEncoding): nat
    requires KeysFit(ts)
  {
    8 + granules * enc.RecordLen() + |Section(ts, Compact)| + EncodedBefore(postings, |postings|)
  }

  /** The pre-check adds up exactly the lengths of the sections the encoders write. */
  lemma {:induction false} SectionsSizeIs(gs: seq<SearchGranule>, ts: seq<Term>, postings: seq<seq<U64>>, enc: G.GranuleEncoding)
    requires G.AllWritable(gs, enc) && KeysFit(ts)
    ensures SectionsSize(|gs|, ts, postings, enc)
            == |G.Section(gs, enc)| + |Section(ts, Compact)| + |PostingSection(postings, |postings|)|
  {
    hide Section, EncodedBefore, PostingSection, G.Section;
  }

  /** Size of the terms and lists from position `i` on. */
  ghost function RestSize(ts: seq<Term>, postings: seq<seq<U64>>, i: nat): nat
    requires KeysFit(ts) && i <= |ts| == |postings|
    decreases |ts| - i
  {
    if i == |ts| then 0 else |Record(ts[i], Compact)| + |Encoded(postings[i])| + RestSize(ts, postings, i + 1)
  }

  lemma {:induction false} RestIsSections(ts: seq<Term>, postings: seq<seq<U64>>, i: nat)
    requires KeysFit(ts) && i <= |ts| == |postings|
    ensures KeysFit(ts[i..])
    ensures EncodedBefore(postings, i) + RestSize(ts, postings, i) == |Records(ts[i..], Compact)| + EncodedBefore(postings, |postings|)
    decreases |ts| - i
  {
    hide Record, Encoded;
    if i < |ts| {
      RestIsSections(ts, postings, i + 1);
      assert ts[i..][0] == ts[i] && ts[i..][1..] == ts[i + 1..];
    }
  }

  /** `check_build_section_size` passes exactly when the sections to be written fit the limit. */
  method CheckBuildSectionSize(granules: U64, ts: seq<Term>, postings: seq<seq<U64>>, enc: G.GranuleEncoding, limit: U64) returns (ok: bool)
    requires |ts| == |postings| && KeysFit(ts)
    ensures ok <==> AllIncreasing(postings) && SectionsSize(granules, ts, postings, enc) <= limit
  {
    hide Record, Encoded, Increasing, EncodedBefore, Records, Le, RestSize;
    RestIsSections(ts, postings, 0);
    assert ts[0..] == ts;
    NoBefore(postings);
    ghost var total := SectionsSize(granules, ts, postings, enc);
    var size: nat := granules * enc.RecordLen() + 16;
    assert total == size + RestSize(ts, postings, 0);
    if size > limit { return false; }
    for i := 0 to |ts|
      invariant size <= limit && total == size + RestSize(ts, postings, i)
      invariant forall k :: 0 <= k < i ==> Increasing(postings[k])
    {
      RestStep(ts, postings, i);
      var record := CompactRecordSize(ts[i]);
      size := size + record;
      if size > limit { return false; }
      var list := EncodedSize(postings[i]);
      assert total >= |Encoded(postings[i])|;
      if list.Err? { return false; }
      size := size + list.value;
      if size > limit { return false; }
    }
    RestDone(ts, postings);
    return true;
  }

  lemma {:induction false} NoBefore(postings: seq<seq<U64>>)
    ensures EncodedBefore(postings, 0) == 0
  {
  }

  lemma {:induction false} RestStep(ts: seq<Term>, postings: seq<seq<U64>>, i: nat)
    requires KeysFit(ts) && i < |ts| == |postings|
    ensures RestSize(ts, postings, i) == |Record(ts[i], Compact)| + |Encoded(postings[i])| + RestSize(ts, postings, i + 1)
  {
  }

  lemma {:induction false} RestDone(ts: seq<Term>, postings: seq<seq<U64>>)
    requires KeysFit(ts) && |ts| == |postings|
    ensures RestSize(ts, postings, |ts|) == 0
  {
  }

  /** The key and three varints. */
  method CompactRecordSize(t: Term) returns (size: nat)
    requires |t.key| <= U64_MAX
    ensures size == |Record(t, Compact)|
  {
    hide Write;
    var a := VaruintLen(|t.key|);
    var b := VaruintLen(t.granuleFrequency);
    var c := VaruintLen(t.postingSize);
    size := |t.key| + a + b + c;
  }

  // ----- the dictionary of a lazily opened sidecar -----

  function SkipsBefore(ts: seq<Term>, n: nat): nat
    requires n <= |ts|
  {
    if n == 0 then 0 else SkipsBefore(ts, n - 1) + ts[n - 1].skipSize
  }

  predicate FileTerm(t: Term, enc: TermEncoding, hash: KeyHash, granuleCount: nat, postingOffset: nat, skipOffset: nat) {
    && t.key != [] && (enc.Legacy? ==> t.keyHash == hash(t.key))
    && t.flags == 0 && t.documentFrequency == 0 && 0 < t.granuleFrequency <= granuleCount && t.postingSize > 0
    && t.postingOffset == postingOffset
    && (enc.Legacy? ==> t.skipOffset == skipOffset && t.skipSize % 24 == 0)
    && (enc.Compact? ==> t.skipOffset == 0 && t.skipSize == 0)
  }

  predicate FileTermAt(ts: seq<Term>, enc: TermEncoding, hash: KeyHash, granuleCount: nat, i: nat)
    requires i < |ts|
  {
    FileTerm(ts[i], enc, hash, granuleCount, SizesBefore(ts, i), SkipsBefore(ts, i))
  }

  /** Keys ascend strictly, offsets are running sums, and the lists fill the posting section. */
  ghost predicate FileDictionary(ts: seq<Term>, postingsSize: nat, enc: TermEncoding, hash: KeyHash, granuleCount: nat) {
    && (forall i :: 0 <= i < |ts| ==> FileTermAt(ts, enc, hash, granuleCount, i))
    && (forall i :: 0 <= i < |ts| - 1 ==> KeyBelow(ts, i))
    && SizesBefore(ts, |ts|) == postingsSize
    && SkipsBefore(ts, |ts|) <= U64_MAX
  }

  predicate KeyBelow(ts: seq<Term>, i: nat)
    requires i + 1 < |ts|
  {
    Less(ts[i].key, ts[i + 1].key)
  }

  lemma {:induction false} RunningSumsGrow(ts: seq<Term>, i: nat, j: nat)
    requires i <= j <= |ts|
    ensures SizesBefore(ts, i) <= SizesBefore(ts, j) && SkipsBefore(ts, i) <= SkipsBefore(ts, j)
    decreases j - i
  {
    if i < j { RunningSumsGrow(ts, i, j - 1); }
  }

  /** The checks on one term, in the source's order. */
  method ValidateFileTerm(t: Term, enc: TermEncoding, hash: KeyHash, granuleCount: U64, expectedPosting: U64, expectedSkip: U64) returns (ok: bool)
    ensures ok <==> FileTerm(t, enc, hash, granuleCount, expectedPosting, expectedSkip)
  {
    if t.key == [] || (enc.Legacy? && t.keyHash != hash(t.key)) { return false; }
    if t.flags != 0 { return false; }
    if t.documentFrequency != 0 || t.granuleFrequency == 0 || t.granuleFrequency > granuleCount || t.postingSize == 0 { return false; }
    if t.postingOffset != expectedPosting { return false; }
    if enc.Legacy? && (t.skipOffset != expectedSkip || t.skipSize % 24 != 0) { return false; }
    return enc.Legacy? || (t.skipOffset == 0 && t.skipSize == 0);
  }

  method ValidateFileTermDictionary(ts: seq<Term>, postingsSize: U64, enc: TermEncoding, hash: KeyHash, granuleCount: U64) returns (ok: bool)
    ensures ok <==> FileDictionary(ts, postingsSize, enc, hash, granuleCount)
  {
    hide Less, FileTerm;
    var expectedPosting: U64, expectedSkip: U64 := 0, 0;
    for i := 0 to |ts|
      invariant expectedPosting == SizesBefore(ts, i) && expectedSkip == SkipsBefore(ts, i)
      invariant forall k :: 0 <= k < i ==> FileTermAt(ts, enc, hash, granuleCount, k)
    {
      RunningSumsGrow(ts, i + 1, |ts|);
      var fine := ValidateFileTerm(ts[i], enc, hash, granuleCount, expectedPosting, expectedSkip);
      if !fine { assert !FileTermAt(ts, enc, hash, granuleCount, i); return false; }
      if expectedPosting + ts[i].postingSize > U64_MAX || expectedSkip + ts[i].skipSize > U64_MAX { return false; }
      expectedPosting, expectedSkip := expectedPosting + ts[i].postingSize, expectedSkip + ts[i].skipSize;
    }
    var i := 0;
    while i + 1 < |ts|
      invariant 0 <= i && (|ts| > 0 ==> i < |ts|)
      invariant forall k :: 0 <= k < i && k + 1 < |ts| ==> KeyBelow(ts, k)
    {
      if !Less(ts[i].key, ts[i + 1].key) { assert !KeyBelow(ts, i); return false; }
      assert KeyBelow(ts, i);
      i := i + 1;
    }
    return expectedPosting == postingsSize;
  }

  /** Every list a valid dictionary names lies inside the posting section, one right after the other. */
  lemma {:induction false} DictionaryCovers(ts: seq<Term>, postingsSize: U64, enc: TermEncoding, hash: KeyHash, granuleCount: nat, i: nat)
    requires FileDictionary(ts, postingsSize, enc, hash, granuleCount) && i < |ts|
    ensures ts[i].postingOffset + ts[i].postingSize <= postingsSize
    ensures i + 1 < |ts| ==> ts[i].postingOffset + ts[i].postingSize == ts[i + 1].postingOffset
    ensures i == 0 ==> ts[i].postingOffset == 0
  {
    RunningSumsGrow(ts, i + 1, |ts|);
    assert FileTermAt(ts, enc, hash, granuleCount, i);
    if i + 1 < |ts| { assert FileTermAt(ts, enc, hash, granuleCount, i + 1); }
  }

  /** A decoded compact dictionary that fills the section and respects the granule count passes. */
  lemma {:induction false} DecodedDictionaryPasses(ts: seq<Term>, postingsSize: nat, hash: KeyHash, granuleCount: nat)
    requires GoodTerms(ts, Compact, hash, 0, None)
    ensures FileDictionary(ts, postingsSize, Compact, hash, granuleCount)
            <==> SizesBefore(ts, |ts|) == postingsSize && forall i :: 0 <= i < |ts| ==> ts[i].granuleFrequency <= granuleCount
  {
    hide Less;
    forall i | 0 <= i < |ts|
      ensures FileTermAt(ts, Compact, hash, granuleCount, i) <==> ts[i].granuleFrequency <= granuleCount
    {
      GoodAt(ts, hash, 0, None, i);
      CompactOffsets(ts, hash, 0, None, i);
    }
    forall i | 0 <= i < |ts| - 1 ensures KeyBelow(ts, i) { GoodAscends(ts, hash, 0, None, i); }
    NoSkips(ts, hash, 0, None, |ts|);
  }

  lemma {:induction false} GoodAt(ts: seq<Term>, hash: KeyHash, offset: nat, previous: Option<Key>, i: nat)
    requires GoodTerms(ts, Compact, hash, offset, previous) && i < |ts|
    ensures Good(ts[i], Compact, hash, ts[i].postingOffset)
    decreases |ts|
  {
    hide Less;
    if i > 0 { GoodAt(ts[1..], hash, After(ts[0], Compact, offset), Some(ts[0].key), i - 1); }
  }

  lemma {:induction false} GoodAscends(ts: seq<Term>, hash: KeyHash, offset: nat, previous: Option<Key>, i: nat)
    requires GoodTerms(ts, Compact, hash, offset, previous) && i + 1 < |ts|
    ensures Less(ts[i].key, ts[i + 1].key)
    decreases |ts|
  {
    hide Less, Good;
    if i > 0 { GoodAscends(ts[1..], hash, After(ts[0], Compact, offset), Some(ts[0].key), i - 1); }
    else { assert ts[1..][0] == ts[1]; }
  }

  lemma {:induction false} NoSkips(ts: seq<Term>, hash: KeyHash, offset: nat, previous: Option<Key>, n: nat)
    requires GoodTerms(ts, Compact, hash, offset, previous) && n <= |ts|
    ensures SkipsBefore(ts, n) == 0
    decreases n
  {
    if n > 0 {
      NoSkips(ts, hash, offset, previous, n - 1);
      GoodAt(ts, hash, offset, previous, n - 1);
    }
  }

  // ----- what the builder writes -----

  /** A dictionary the sidecar builder can write: ascending nonempty keys with nonempty increasing lists. */
  ghost predicate WritableDictionary(keys: seq<Key>, postings: seq<seq<U64>>) {
    && |keys| == |postings| <= U64_MAX && Sorted(keys) && AllIncreasing(postings)
    && EncodedBefore(postings, |postings|) <= U64_MAX
    && forall i :: 0 <= i < |keys| ==> 0 < |keys[i]| <= U64_MAX && postings[i] != []
  }

  lemma {:induction false} ListFits(postings: seq<seq<U64>>, i: nat)
    requires i < |postings| && EncodedBefore(postings, |postings|) <= U64_MAX
    ensures EncodedBefore(postings, i) + |Encoded(postings[i])| == EncodedBefore(postings, i + 1) <= U64_MAX
    ensures |postings[i]| <= |Encoded(postings[i])| && |postings[i]| <= U64_MAX
  {
    BeforeGrows(postings, false, i + 1, |postings|);
  }

  /** The compact terms of a dictionary from position `i` on. */
  ghost function BuilderTerms(keys: seq<Key>, postings: seq<seq<U64>>, hash: KeyHash, i: nat): (ts: seq<Term>)
    requires WritableDictionary(keys, postings) && i <= |keys|
    ensures |ts| == |keys| - i
    decreases |keys| - i
  {
    if i == |keys| then []
    else
      ListFits(postings, i);
      [Term(keys[i], hash(keys[i]), 0, |postings[i]|, EncodedBefore(postings, i), |Encoded(postings[i])|, 0, 0, 0)]
      + BuilderTerms(keys, postings, hash, i + 1)
  }

  lemma {:induction false} BuilderTermsGood(keys: seq<Key>, postings: seq<seq<U64>>, hash: KeyHash, i: nat)
    requires WritableDictionary(keys, postings) && SixteenBytes(hash) && i <= |keys|
    ensures GoodTerms(BuilderTerms(keys, postings, hash, i), Compact, hash, EncodedBefore(postings, i), if i == 0 then None else Some(keys[i - 1]))
    decreases |keys| - i
  {
    hide Less, Encoded, EncodedBefore;
    if i < |keys| {
      ListFits(postings, i);
      BuilderTermsGood(keys, postings, hash, i + 1);
      var ts := BuilderTerms(keys, postings, hash, i);
      assert ts[1..] == BuilderTerms(keys, postings, hash, i + 1);
      assert |hash(keys[i])| == 16 && |postings[i]| > 0;
    }
  }

  lemma {:induction false} BuilderTermAt(keys: seq<Key>, postings: seq<seq<U64>>, hash: KeyHash, i: nat, k: nat)
    requires WritableDictionary(keys, postings) && i <= k < |keys|
    ensures var t := BuilderTerms(keys, postings, hash, i)[k - i];
            t.key == keys[k] && t.postingOffset == EncodedBefore(postings, k) && t.postingSize == |Encoded(postings[k])|
    decreases k - i
  {
    hide Encoded, EncodedBefore, Sorted;
    if i < k { BuilderTermAt(keys, postings, hash, i + 1, k); }
  }

  /**
   * Decoding what the builder writes restores every key and posting list, with offsets that are
   * the sums of the sizes before, exactly within the reader's limits.
   */
  lemma {:induction false} SidecarRoundTrip(keys: seq<Key>, postings: seq<seq<U64>>, hash: KeyHash, maxCount: U64, maxSize: U64, limits: SidecarLimits)
    requires WritableDictionary(keys, postings) && SixteenBytes(hash)
    ensures var ts := BuilderTerms(keys, postings, hash, 0);
            && KeysFit(ts) && Locates(ts, postings)
            && (DecodeTermsSpec(Section(ts, Compact), Compact, hash, maxCount, maxSize) == Ok(ts)
                <==> |ts| <= maxCount && |Section(ts, Compact)| <= maxSize)
            && (ListsFrom(PostingSection(postings, |postings|), ts, limits.maxListSize, limits.maxIds) == Ok(postings)
                <==> TotalIds(postings) <= limits.maxIds && forall i :: 0 <= i < |postings| ==> |Encoded(postings[i])| <= limits.maxListSize)
  {
    hide Encoded, EncodedBefore, Sorted, GoodTerms, PostingSection, DecodeTermsSpec, ListsFrom, Section, BuilderTerms;
    var ts := BuilderTerms(keys, postings, hash, 0);
    BuilderTermsGood(keys, postings, hash, 0);
    NoBefore(postings);
    GoodFit(ts, Compact, hash, 0, None);
    TermsExact(Section(ts, Compact), Compact, hash, maxCount, maxSize, ts);
    forall i | 0 <= i < |ts| ensures LocatesAt(ts, postings, i) { BuilderTermAt(keys, postings, hash, 0, i); }
    ListsExact(PostingSection(postings, |postings|), ts, limits.maxListSize, limits.maxIds, postings);
    if forall i :: 0 <= i < |postings| ==> |Encoded(postings[i])| <= limits.maxListSize {
      forall i | 0 <= i < |ts| ensures ts[i].postingSize <= limits.maxListSize { assert LocatesAt(ts, postings, i); }
      BuilderSectionHolds(ts, postings, limits.maxListSize);
    }
    if Holds(PostingSection(postings, |postings|), ts, limits.maxListSize, postings) {
      forall i | 0 <= i < |postings| ensures |Encoded(postings[i])| <= limits.maxListSize {
        assert LocatesAt(ts, postings, i);
        assert ListBytes(PostingSection(postings, |postings|), ts[i], limits.maxListSize).Ok?;
      }
    }
  }

  /** The line index of a text is a dictionary the sidecar builder can write. */
  lemma {:induction false} BuiltIndexIsWritable(c: ChunkCache.Container, mode: BuildKeys, parts: LineIndexParts)
    requires c.Valid() && mode.Valid() && IsIndexOf(c, mode, parts)
    requires |parts.terms| <= U64_MAX && EncodedBefore(parts.postings, |parts.postings|) <= U64_MAX
    requires forall i :: 0 <= i < |parts.terms| ==> |parts.terms[i]| <= U64_MAX
    ensures WritableDictionary(parts.terms, parts.postings)
  {
    hide LinesFrom, Stream, Dictionary, PostingsOf, Sorted, LineKeys, EncodedBefore, ChunkTable.Tiles, Increasing;
    var ls := LinesFrom(c.text, 0);
    var stream := Stream(mode, c.text, ls);
    DictionaryExact(stream, []);
    StreamExact(mode, c.text, ls);
    forall i | 0 <= i < |parts.terms| ensures parts.terms[i] != [] && parts.postings[i] != [] && Increasing(parts.postings[i]) {
      var k := parts.terms[i];
      assert k in parts.terms;
      DictionaryExact(stream, k);
      var j :| 0 <= j < |stream| && stream[j].0 == k;
      PostingsExact(stream, k);
      assert (k, stream[j].1) in stream;
      NonemptyKey(mode, LineBytes(c.text, ls[stream[j].1]), k);
    }
  }

  lemma {:induction false} NonemptyKey(mode: BuildKeys, line: seq<Byte>, k: Key)
    requires k in LineKeys(mode, line)
    ensures k != []
  {
    hide Tokens.TokenKeys, Ngrams.NgramKeys;
    match mode
    case TokenMode =>
      Tokens.TokenKeysExact(line, k);
      var a, b := Tokens.SomeToken(line, k);
    case NgramMode(n) =>
      var w := Ngrams.NgramKeyOf(line, n, k);
      Ngrams.WindowNonempty(line, n, w);
  }
}
