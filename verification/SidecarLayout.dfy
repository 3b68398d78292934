/** The sidecar's records by byte position: every field, its offset, its width, least significant byte first. */
module SidecarLayout {
  import opened Bytes
  import opened Digits
  import opened LittleEndian
  import opened Varint
  import opened Verification
  import G = SidecarGranules
  import T = SidecarTerms

  /** The `width` bytes at `at` are the base-256 digits of `v`, least significant first. */
  predicate WordAt(bytes: seq<Byte>, at: nat, width: nat, v: nat) {
    at + width <= |bytes| && forall k :: at <= k < at + width ==> bytes[k] == Digit(v, 256, k - at)
  }

  lemma {:induction false} LeAt(n: nat, w: nat, i: nat)
    requires i < w
    ensures Le(n, w)[i] == Digit(n, 256, i)
    decreases w
  {
    hide Digit;
    HigherDigit(n, 256, 0);
    if i > 0 {
      LeAt(n / 256, w - 1, i - 1);
      HigherDigit(n, 256, i - 1);
    }
  }

  /** A slice is a word's encoding exactly when its bytes are the word's digits. */
  lemma {:induction false} WordIs(bytes: seq<Byte>, at: nat, w: nat, n: nat)
    requires at + w <= |bytes|
    ensures WordAt(bytes, at, w, n) <==> bytes[at..at + w] == Le(n, w)
  {
    hide Le, Digit;
    var slice := bytes[at..at + w];
    forall i | 0 <= i < w ensures Le(n, w)[i] == Digit(n, 256, i) && slice[i] == bytes[at + i] { LeAt(n, w, i); }
    if slice == Le(n, w) {
      forall k | at <= k < at + w ensures bytes[k] == Digit(n, 256, k - at) { assert slice[k - at] == bytes[k]; }
    }
    if WordAt(bytes, at, w, n) {
      forall i | 0 <= i < w ensures slice[i] == Le(n, w)[i] { assert bytes[at + i] == Digit(n, 256, at + i - at); }
    }
  }

  /** Words of equal width, one after another from `at` on. */
  ghost predicate WordsAt(bytes: seq<Byte>, at: nat, w: nat, ns: seq<nat>)
    decreases |ns|
  {
    ns != [] ==> WordAt(bytes, at, w, ns[0]) && WordsAt(bytes, at + w, w, ns[1..])
  }

  lemma {:induction false} WordsAre(bytes: seq<Byte>, at: nat, w: nat, ns: seq<nat>)
    requires at + |ns| * w <= |bytes|
    ensures WordsAt(bytes, at, w, ns) <==> bytes[at..at + |ns| * w] == Words(ns, w)
    decreases |ns|
  {
    hide WordAt, Words, Le;
    if ns == [] {
      NoWords([], w);
    } else {
      Mul(|ns|, w);
      WordsStep(ns, w);
      WordIs(bytes, at, w, ns[0]);
      WordsAre(bytes, at + w, w, ns[1..]);
      SameParts(bytes, at, w, at + |ns| * w, Words(ns, w));
    }
  }

  lemma {:induction false} SameParts(bytes: seq<Byte>, at: nat, w: nat, end: nat, s: seq<Byte>)
    requires at + w <= end <= |bytes| && |s| == end - at
    ensures bytes[at..end] == s <==> bytes[at..at + w] == s[..w] && bytes[at + w..end] == s[w..]
  {
    assert bytes[at..end] == bytes[at..at + w] + bytes[at + w..end];
    assert s == s[..w] + s[w..];
  }

  // ----- granule records -----

  /** An absent number is stored as the largest u64. */
  function Stored(v: Option<U64>): U64 { match v case None => 0xFFFF_FFFF_FFFF_FFFF case Some(n) => n }

  /** Legacy: seven u64 words. Compact: the offset as u64, then length, first chunk and number of chunks as u32. */
  ghost predicate GranuleFields(bytes: seq<Byte>, enc: G.GranuleEncoding, g: SearchGranule) {
    match enc
    case LegacyV1 =>
      && |bytes| == 56
      && WordAt(bytes, 0, 8, g.granuleId) && WordAt(bytes, 8, 8, g.logicalOffset) && WordAt(bytes, 16, 8, g.byteLength)
      && WordAt(bytes, 24, 8, g.chunkStart) && WordAt(bytes, 32, 8, g.chunkEnd)
      && WordAt(bytes, 40, 8, Stored(g.firstLine)) && WordAt(bytes, 48, 8, Stored(g.lineCount))
    case LineImpliedV2 =>
      && |bytes| == 20 && g.chunkStart <= g.chunkEnd
      && WordAt(bytes, 0, 8, g.logicalOffset) && WordAt(bytes, 8, 4, g.byteLength)
      && WordAt(bytes, 12, 4, g.chunkStart) && WordAt(bytes, 16, 4, g.chunkEnd - g.chunkStart)
  }

  /** A record is written with exactly these fields. */
  lemma {:induction false} GranuleLayout(bytes: seq<Byte>, enc: G.GranuleEncoding, g: SearchGranule)
    requires G.Writable(g, enc)
    ensures bytes == G.Record(g, enc) <==> GranuleFields(bytes, enc, g)
  {
    hide WordAt, Words, Le;
    match enc
    case LegacyV1 =>
      var ns := G.LegacyWords(g);
      if |bytes| == 56 {
        WordsAre(bytes, 0, 8, ns);
        assert bytes[0..56] == bytes;
        SevenWords(bytes, 0, ns);
      }
    case LineImpliedV2 =>
      var ns := G.CompactWords(g);
      if |bytes| == 20 {
        WordIs(bytes, 0, 8, g.logicalOffset);
        WordsAre(bytes, 8, 4, ns);
        ThreeWords(bytes, 8, ns);
        assert bytes == bytes[0..8] + bytes[8..20];
        var r := G.Record(g, enc);
        assert r[..8] == Le(g.logicalOffset, 8) && r[8..] == Words(ns, 4);
      }
  }

  lemma {:induction false} SevenWords(bytes: seq<Byte>, at: nat, ns: seq<nat>)
    requires |ns| == 7
    ensures WordsAt(bytes, at, 8, ns) <==>
              && WordAt(bytes, at, 8, ns[0]) && WordAt(bytes, at + 8, 8, ns[1]) && WordAt(bytes, at + 16, 8, ns[2])
              && WordAt(bytes, at + 24, 8, ns[3]) && WordAt(bytes, at + 32, 8, ns[4]) && WordAt(bytes, at + 40, 8, ns[5])
              && WordAt(bytes, at + 48, 8, ns[6])
  {
    hide WordAt;
    var three := ns[1..][1..][1..][1..];
    assert three == ns[4..];
    assert WordsAt(bytes, at + 32, 8, three) <==> WordAt(bytes, at + 32, 8, ns[4]) && WordAt(bytes, at + 40, 8, ns[5]) && WordAt(bytes, at + 48, 8, ns[6])
      by { ThreeWide(bytes, at + 32, 8, three); }
    assert WordsAt(bytes, at + 24, 8, ns[1..][1..][1..]) <==> WordAt(bytes, at + 24, 8, ns[3]) && WordsAt(bytes, at + 32, 8, three);
    assert WordsAt(bytes, at + 16, 8, ns[1..][1..]) <==> WordAt(bytes, at + 16, 8, ns[2]) && WordsAt(bytes, at + 24, 8, ns[1..][1..][1..]);
    assert WordsAt(bytes, at + 8, 8, ns[1..]) <==> WordAt(bytes, at + 8, 8, ns[1]) && WordsAt(bytes, at + 16, 8, ns[1..][1..]);
  }

  lemma {:induction false} ThreeWide(bytes: seq<Byte>, at: nat, w: nat, ns: seq<nat>)
    requires |ns| == 3
    ensures WordsAt(bytes, at, w, ns) <==> WordAt(bytes, at, w, ns[0]) && WordAt(bytes, at + w, w, ns[1]) && WordAt(bytes, at + 2 * w, w, ns[2])
  {
    hide WordAt;
    assert ns[1..][1..][1..] == [];
    assert WordsAt(bytes, at + w + w, w, ns[1..][1..]) <==> WordAt(bytes, at + w + w, w, ns[2]);
  }

  lemma {:induction false} ThreeWords(bytes: seq<Byte>, at: nat, ns: seq<nat>)
    requires |ns| == 3
    ensures WordsAt(bytes, at, 4, ns) <==> WordAt(bytes, at, 4, ns[0]) && WordAt(bytes, at + 4, 4, ns[1]) && WordAt(bytes, at + 8, 4, ns[2])
  {
    ThreeWide(bytes, at, 4, ns);
  }

  /** What decoding one record of either layout accepts and returns. */
  lemma {:induction false} DecodedGranule(bytes: seq<Byte>, id: U64, enc: G.GranuleEncoding, g: SearchGranule)
    ensures G.DecodeRecord(bytes, id, enc) == Ok(g) <==>
              && GranuleFields(bytes, enc, g) && g.granuleId == id
              && (if enc.LegacyV1? then g.firstLine != Some(U64_MAX) && g.lineCount != Some(U64_MAX)
                  else && g.firstLine == Some(id) && g.lineCount == Some(1) && g.byteLength <= 0xFFFF_FFFF && g.chunkStart <= 0xFFFF_FFFF
                       && 0 <= g.chunkEnd - g.chunkStart <= 0xFFFF_FFFF)
  {
    hide G.Record, G.DecodeRecord, GranuleFields;
    G.RecordExact(bytes, id, enc, g);
    if G.Writable(g, enc) { GranuleLayout(bytes, enc, g); }
  }

  /** The section: the number of granules as u64, then the records back to back. */
  lemma {:induction false} GranuleSectionLayout(gs: seq<SearchGranule>, enc: G.GranuleEncoding, i: nat)
    requires G.AllWritable(gs, enc) && i < |gs|
    ensures var section, size := G.Section(gs, enc), if enc.LegacyV1? then 56 else 20;
            && WordAt(section, 0, 8, |gs|)
            && |section| == 8 + |gs| * size && 8 + i * size + size <= |section|
            && GranuleFields(section[8 + i * size..8 + i * size + size], enc, gs[i])
  {
    hide G.Record, GranuleFields, G.Records, Le, WordAt;
    var section := G.Section(gs, enc);
    WordIs(section, 0, 8, |gs|);
    assert section[0..8] == Le(|gs|, 8);
    G.SectionRecord(gs, enc, i);
    GranuleLayout(G.RecordAt(section, i, enc), enc, gs[i]);
  }

  // ----- term records -----

  /**
   * Legacy: key length as u64, the key, its 16-byte hash, seven u64 words. Compact: key length, the
   * key, granule frequency and posting size, the three numbers as varints.
   */
  ghost predicate TermFields(bytes: seq<Byte>, enc: T.TermEncoding, t: T.Term) {
    var n := |t.key|;
    match enc
    case Legacy =>
      && |bytes| == n + 80
      && WordAt(bytes, 0, 8, n) && bytes[8..8 + n] == t.key && bytes[8 + n..24 + n] == t.keyHash
      && WordAt(bytes, n + 24, 8, t.documentFrequency) && WordAt(bytes, n + 32, 8, t.granuleFrequency)
      && WordAt(bytes, n + 40, 8, t.postingOffset) && WordAt(bytes, n + 48, 8, t.postingSize)
      && WordAt(bytes, n + 56, 8, t.skipOffset) && WordAt(bytes, n + 64, 8, t.skipSize)
      && WordAt(bytes, n + 72, 8, t.flags)
    case Compact =>
      match Parse(bytes, 0)
      case None => false
      case Some((length, at)) =>
        && length == n && at + n <= |bytes| && bytes[at..at + n] == t.key
        && match Parse(bytes, at + n)
           case None => false
           case Some((frequency, next)) => frequency == t.granuleFrequency && Parse(bytes, next) == Some((t.postingSize, |bytes|))
  }

  /** A term is written with exactly these fields. */
  lemma {:induction false} TermLayout(bytes: seq<Byte>, enc: T.TermEncoding, t: T.Term)
    requires |t.key| <= U64_MAX && |t.keyHash| == 16
    ensures bytes == T.Record(t, enc) <==> TermFields(bytes, enc, t)
  {
    match enc
    case Legacy => LegacyTermLayout(bytes, t);
    case Compact => CompactTermLayout(bytes, t);
  }

  lemma {:induction false} LegacyTermLayout(bytes: seq<Byte>, t: T.Term)
    requires |t.key| <= U64_MAX && |t.keyHash| == 16
    ensures bytes == T.Record(t, T.Legacy) <==> TermFields(bytes, T.Legacy, t)
  {
    hide WordAt, Words, Le, WordsAt;
    var n, stats := |t.key|, Words(T.Stats(t), 8);
    if |bytes| == n + 80 {
      WordIs(bytes, 0, 8, n);
      WordsAre(bytes, n + 24, 8, T.Stats(t));
      SevenWords(bytes, n + 24, T.Stats(t));
      FourParts(bytes, Le(n, 8), t.key, t.keyHash, stats);
      assert bytes[n + 24..n + 80] == bytes[n + 24..];
    }
  }

  lemma {:induction false} FourParts(bytes: seq<Byte>, a: seq<Byte>, b: seq<Byte>, c: seq<Byte>, d: seq<Byte>)
    requires |bytes| == |a| + |b| + |c| + |d|
    ensures var i, j := |a| + |b|, |a| + |b| + |c|;
            bytes == a + (b + (c + d)) <==> bytes[..|a|] == a && bytes[|a|..i] == b && bytes[i..j] == c && bytes[j..] == d
  {
    var i, j := |a| + |b|, |a| + |b| + |c|;
    assert bytes == bytes[..|a|] + (bytes[|a|..i] + (bytes[i..j] + bytes[j..]));
    var s := a + (b + (c + d));
    assert s[..|a|] == a && s[|a|..i] == b && s[i..j] == c && s[j..] == d;
  }

  lemma {:induction false} CompactTermLayout(bytes: seq<Byte>, t: T.Term)
    requires |t.key| <= U64_MAX
    ensures bytes == T.Record(t, T.Compact) <==> TermFields(bytes, T.Compact, t)
  {
    hide Write, Parse;
    var n := |t.key|;
    var a, b, c := Write(n), Write(t.granuleFrequency), Write(t.postingSize);
    var at := |a|;
    var next := at + n + |b|;
    ParseIffWritten(bytes, 0, n, at);
    ParseIffWritten(bytes, at + n, t.granuleFrequency, next);
    ParseIffWritten(bytes, next, t.postingSize, |bytes|);
    if bytes == T.Record(t, T.Compact) {
      FourParts(bytes, a, t.key, b, c);
      assert bytes[0..at] == a && bytes[next..|bytes|] == c;
    }
    if TermFields(bytes, T.Compact, t) {
      CompactEnds(bytes, t);
      FourParts(bytes, a, t.key, b, c);
      assert bytes[..at] == bytes[0..at] && bytes[next..] == bytes[next..|bytes|];
    }
  }

  /** The three numbers lie where their spellings end. */
  lemma {:induction false} CompactEnds(bytes: seq<Byte>, t: T.Term)
    requires |t.key| <= U64_MAX && TermFields(bytes, T.Compact, t)
    ensures var at := |Write(|t.key|)|; var next := at + |t.key| + |Write(t.granuleFrequency)|;
            && Parse(bytes, 0) == Some((|t.key|, at)) && Parse(bytes, at + |t.key|) == Some((t.granuleFrequency, next))
            && Parse(bytes, next) == Some((t.postingSize, |bytes|)) && |bytes| == next + |Write(t.postingSize)|
  {
    hide Write, Parse;
    var n, at := |t.key|, Parse(bytes, 0).value.1;
    var next := Parse(bytes, at + n).value.1;
    ParseIffWritten(bytes, 0, n, at);
    ParseIffWritten(bytes, at + n, t.granuleFrequency, next);
    ParseIffWritten(bytes, next, t.postingSize, |bytes|);
  }
}
