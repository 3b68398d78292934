/** The term section of a sidecar: a fixed-envelope layout and a compact one that derives hashes and offsets. */
module SidecarTerms {
  import opened Bytes
  import opened LittleEndian
  import opened Varint
  import opened Delta
  import opened KeySets

  datatype Term = Term(
    key: Key, keyHash: seq<Byte>, documentFrequency: U64, granuleFrequency: U64, postingOffset: U64, postingSize: U64,
    skipOffset: U64, skipSize: U64, flags: U64)

  datatype TermEncoding = Legacy | Compact

  /** The 16-byte key hash, an arbitrary function. */
  type KeyHash = Key -> seq<Byte>

  ghost predicate SixteenBytes(hash: KeyHash) { forall k :: |hash(k)| == 16 }

  function Stats(t: Term): seq<nat> {
    [t.documentFrequency, t.granuleFrequency, t.postingOffset, t.postingSize, t.skipOffset, t.skipSize, t.flags]
  }

  function Record(t: Term, enc: TermEncoding): (bytes: seq<Byte>)
    requires |t.key| <= U64_MAX
  {
    match enc
    case Legacy => Le(|t.key|, 8) + (t.key + (t.keyHash + Words(Stats(t), 8)))
    case Compact => Write(|t.key|) + (t.key + (Write(t.granuleFrequency) + Write(t.postingSize)))
  }

  /** A term the decoder accepts at a given running posting offset. */
  predicate Good(t: Term, enc: TermEncoding, hash: KeyHash, offset: nat) {
    && 0 < |t.key| <= U64_MAX
    && |t.keyHash| == 16 && t.keyHash == hash(t.key)
    && t.granuleFrequency > 0 && t.postingSize > 0 && t.flags == 0
    && (enc.Compact? ==> t.documentFrequency == 0 && t.postingOffset == offset && t.skipOffset == 0 && t.skipSize == 0)
    && (enc.Compact? ==> offset + t.postingSize <= U64_MAX)
  }

  // ----- one record -----

  /** The seven statistics words after a legacy hash. */
  function LegacyTail(bytes: seq<Byte>, at: nat, key: Key): (r: Result<(Term, nat)>)
    ensures r.Ok? ==> at <= r.value.1 <= |bytes|
  {
    if at + 72 > |bytes| then Err
    else
      var f := Unwords(bytes[at + 16..at + 72], 8, 7);
      if forall i :: 0 <= i < 7 ==> f[i] <= U64_MAX
      then Ok((Term(key, bytes[at..at + 16], f[0], f[1], f[2], f[3], f[4], f[5], f[6]), at + 72))
      else Err
  }

  function CompactTail(bytes: seq<Byte>, at: nat, key: Key, hash: KeyHash, offset: U64): (r: Result<(Term, nat)>)
    ensures r.Ok? ==> at <= r.value.1 <= |bytes|
  {
    match Parse(bytes, at)
    case None => Err
    case Some((frequency, next)) =>
      match Parse(bytes, next)
      case None => Err
      case Some((size, end)) =>
        if offset + size > U64_MAX then Err
        else Ok((Term(key, hash(key), 0, frequency, offset, size, 0, 0, 0), end))
  }

  /** The key length in either layout. */
  function KeyLength(bytes: seq<Byte>, at: nat, enc: TermEncoding): (r: Option<(U64, nat)>)
    ensures r.Some? ==> at < r.value.1 <= |bytes|
  {
    match enc
    case Legacy => if at + 8 > |bytes| || Unle(bytes[at..at + 8]) > U64_MAX then None else Some((Unle(bytes[at..at + 8]), at + 8))
    case Compact => Parse(bytes, at)
  }

  function OneTerm(bytes: seq<Byte>, at: nat, enc: TermEncoding, hash: KeyHash, offset: U64): (r: Result<(Term, nat)>)
    ensures r.Ok? ==> at < r.value.1 <= |bytes|
  {
    match KeyLength(bytes, at, enc)
    case None => Err
    case Some((length, start)) =>
      if length == 0 || start + length > |bytes| then Err
      else
        var key := bytes[start..start + length];
        match (if enc.Legacy? then LegacyTail(bytes, start + length, key) else CompactTail(bytes, start + length, key, hash, offset))
        case Err => Err
        case Ok((t, next)) =>
          if t.granuleFrequency == 0 || t.postingSize == 0 || t.flags != 0 || t.keyHash != hash(t.key) then Err else Ok((t, next))
  }

  lemma {:induction false} LegacyTailExact(bytes: seq<Byte>, at: nat, key: Key, t: Term, next: nat)
    ensures LegacyTail(bytes, at, key) == Ok((t, next))
            <==> && t.key == key && |t.keyHash| == 16 && next == at + 72 <= |bytes|
                 && bytes[at..next] == t.keyHash + Words(Stats(t), 8)
  {
    hide Words, Unwords, Pow256;
    Widths();
    if at + 72 <= |bytes| {
      var tail := bytes[at + 16..at + 72];
      WordsOfUnwords(tail, 8, 7);
      assert bytes[at..at + 72] == bytes[at..at + 16] + tail;
      if LegacyTail(bytes, at, key) == Ok((t, next)) { assert Unwords(tail, 8, 7) == Stats(t); }
      if t.key == key && |t.keyHash| == 16 && next == at + 72 && bytes[at..next] == t.keyHash + Words(Stats(t), 8) {
        var whole := bytes[at..next];
        assert whole[..16] == t.keyHash && whole[16..] == Words(Stats(t), 8);
        assert whole[..16] == bytes[at..at + 16] && whole[16..] == tail;
        UnwordsOfWords(Stats(t), 8);
      }
    }
  }

  lemma {:induction false} CompactTailSound(bytes: seq<Byte>, at: nat, key: Key, hash: KeyHash, offset: U64)
    requires CompactTail(bytes, at, key, hash, offset).Ok?
    ensures var (t, next) := CompactTail(bytes, at, key, hash, offset).value;
            && t.key == key && t.keyHash == hash(key) && t.documentFrequency == 0 && t.postingOffset == offset && t.skipOffset == 0
            && t.skipSize == 0 && t.flags == 0 && offset + t.postingSize <= U64_MAX
            && bytes[at..next] == Write(t.granuleFrequency) + Write(t.postingSize)
  {
    hide Write, Parse;
    var (frequency, mid) := Parse(bytes, at).value;
    var (size, end) := Parse(bytes, mid).value;
    ParseIffWritten(bytes, at, frequency, mid);
    ParseIffWritten(bytes, mid, size, end);
    assert bytes[at..end] == bytes[at..mid] + bytes[mid..end];
  }

  lemma {:induction false} CompactTailComplete(bytes: seq<Byte>, at: nat, hash: KeyHash, offset: U64, t: Term, rest: seq<Byte>)
    requires at <= |bytes| && bytes[at..] == Write(t.granuleFrequency) + (Write(t.postingSize) + rest)
    requires Good(t, Compact, hash, offset)
    ensures CompactTail(bytes, at, t.key, hash, offset) == Ok((t, at + |Write(t.granuleFrequency)| + |Write(t.postingSize)|))
  {
    hide Write, Parse;
    var a, b := Write(t.granuleFrequency), Write(t.postingSize);
    SplitAt(bytes, at, a, b + rest);
    SplitAt(bytes, at + |a|, b, rest);
    ParseWritten(bytes, at, t.granuleFrequency);
    ParseWritten(bytes, at + |a|, t.postingSize);
  }

  /** Length prefix of a key. */
  function Prefix(n: U64, enc: TermEncoding): seq<Byte> { if enc.Legacy? then Le(n, 8) else Write(n) }

  lemma {:induction false} KeyLengthExact(bytes: seq<Byte>, at: nat, enc: TermEncoding, n: U64, next: nat)
    ensures KeyLength(bytes, at, enc) == Some((n, next))
            <==> next == at + |Prefix(n, enc)| <= |bytes| && bytes[at..next] == Prefix(n, enc)
  {
    hide Write, Parse, Le, Unle, Pow256;
    Widths();
    match enc
    case Legacy =>
      if at + 8 <= |bytes| { LeOfUnle(bytes[at..at + 8]); }
      UnleOfLe(n, 8);
    case Compact => ParseIffWritten(bytes, at, n, next);
  }

  /** An accepted record is the encoding of an acceptable term. */
  lemma {:induction false} OneTermSound(bytes: seq<Byte>, at: nat, enc: TermEncoding, hash: KeyHash, offset: U64)
    requires OneTerm(bytes, at, enc, hash, offset).Ok? && SixteenBytes(hash)
    ensures var (t, next) := OneTerm(bytes, at, enc, hash, offset).value;
            Good(t, enc, hash, offset) && bytes[at..next] == Record(t, enc)
  {
    hide Write, Parse, Le, KeyLength, LegacyTail, CompactTail, Words;
    var (length, start) := KeyLength(bytes, at, enc).value;
    KeyLengthExact(bytes, at, enc, length, start);
    var key := bytes[start..start + length];
    var (t, next) := OneTerm(bytes, at, enc, hash, offset).value;
    assert |hash(key)| == 16;
    if enc.Legacy? { LegacyTailExact(bytes, start + length, key, t, next); }
    else { CompactTailSound(bytes, start + length, key, hash, offset); }
    assert bytes[at..next] == bytes[at..start] + (bytes[start..start + length] + bytes[start + length..next]);
  }

  lemma {:induction false} OneTermComplete(bytes: seq<Byte>, at: nat, enc: TermEncoding, hash: KeyHash, offset: U64, t: Term, rest: seq<Byte>)
    requires at <= |bytes| && Good(t, enc, hash, offset) && bytes[at..] == Record(t, enc) + rest
    ensures OneTerm(bytes, at, enc, hash, offset) == Ok((t, at + |Record(t, enc)|))
  {
    hide Write, Parse, Le, KeyLength, LegacyTail, CompactTail, Words;
    var p := Prefix(|t.key|, enc);
    if enc.Legacy? {
      var tail := t.keyHash + Words(Stats(t), 8);
      assert Record(t, enc) + rest == p + (t.key + (tail + rest));
      SplitAt(bytes, at, p, t.key + (tail + rest));
      SplitAt(bytes, at + |p|, t.key, tail + rest);
      SplitAt(bytes, at + |p| + |t.key|, tail, rest);
      LegacyTailExact(bytes, at + |p| + |t.key|, t.key, t, at + |p| + |t.key| + 72);
    } else {
      var a, b := Write(t.granuleFrequency), Write(t.postingSize);
      assert Record(t, enc) + rest == p + (t.key + (a + (b + rest)));
      SplitAt(bytes, at, p, t.key + (a + (b + rest)));
      SplitAt(bytes, at + |p|, t.key, a + (b + rest));
      CompactTailComplete(bytes, at + |p| + |t.key|, hash, offset, t, rest);
    }
    KeyLengthExact(bytes, at, enc, |t.key|, at + |p|);
  }

  // ----- the section -----

  ghost predicate KeysFit(ts: seq<Term>) { forall i :: 0 <= i < |ts| ==> |ts[i].key| <= U64_MAX }

  ghost function Records(ts: seq<Term>, enc: TermEncoding): seq<Byte>
    requires KeysFit(ts)
  {
    if ts == [] then [] else Record(ts[0], enc) + Records(ts[1..], enc)
  }

  ghost function Section(ts: seq<Term>, enc: TermEncoding): seq<Byte>
    requires KeysFit(ts)
  {
    Le(|ts|, 8) + Records(ts, enc)
  }

  /** Running posting offset after a term. */
  function After(t: Term, enc: TermEncoding, offset: nat): nat { if enc.Compact? then offset + t.postingSize else offset }

  predicate Above(previous: Option<Key>, k: Key) { previous.Some? ==> Less(previous.value, k) }

  /** Acceptable terms in strictly ascending key order; compact offsets are the sums of the sizes before. */
  ghost predicate GoodTerms(ts: seq<Term>, enc: TermEncoding, hash: KeyHash, offset: nat, previous: Option<Key>) {
    ts == []
    || (&& Good(ts[0], enc, hash, offset) && Above(previous, ts[0].key)
        && GoodTerms(ts[1..], enc, hash, After(ts[0], enc, offset), Some(ts[0].key)))
  }

  lemma {:induction false} GoodFit(ts: seq<Term>, enc: TermEncoding, hash: KeyHash, offset: nat, previous: Option<Key>)
    requires GoodTerms(ts, enc, hash, offset, previous)
    ensures KeysFit(ts)
    decreases |ts|
  {
    hide Less;
    if ts != [] {
      GoodFit(ts[1..], enc, hash, After(ts[0], enc, offset), Some(ts[0].key));
      assert ts == [ts[0]] + ts[1..];
    }
  }

  function TermsFrom(bytes: seq<Byte>, at: nat, n: nat, enc: TermEncoding, hash: KeyHash, offset: U64, previous: Option<Key>): (r: Result<(seq<Term>, nat)>)
    requires at <= |bytes|
    ensures r.Ok? ==> at <= r.value.1 <= |bytes| && |r.value.0| == n
    decreases n
  {
    if n == 0 then Ok(([], at))
    else match OneTerm(bytes, at, enc, hash, offset)
      case Err => Err
      case Ok((t, next)) =>
        if !Above(previous, t.key) || After(t, enc, offset) > U64_MAX then Err
        else match TermsFrom(bytes, next, n - 1, enc, hash, After(t, enc, offset), Some(t.key))
          case Err => Err
          case Ok((rest, end)) => Ok(([t] + rest, end))
  }

  lemma {:induction false} TermsSound(bytes: seq<Byte>, at: nat, n: nat, enc: TermEncoding, hash: KeyHash, offset: U64, previous: Option<Key>)
    requires at <= |bytes| && TermsFrom(bytes, at, n, enc, hash, offset, previous).Ok? && SixteenBytes(hash)
    ensures var (ts, end) := TermsFrom(bytes, at, n, enc, hash, offset, previous).value;
            GoodTerms(ts, enc, hash, offset, previous) && KeysFit(ts) && bytes[at..end] == Records(ts, enc)
    decreases n
  {
    hide OneTerm, Record, Less;
    if n > 0 {
      var (t, next) := OneTerm(bytes, at, enc, hash, offset).value;
      OneTermSound(bytes, at, enc, hash, offset);
      TermsSound(bytes, next, n - 1, enc, hash, After(t, enc, offset), Some(t.key));
      var (ts, end) := TermsFrom(bytes, at, n, enc, hash, offset, previous).value;
      assert ts[1..] == TermsFrom(bytes, next, n - 1, enc, hash, After(t, enc, offset), Some(t.key)).value.0;
      GoodFit(ts, enc, hash, offset, previous);
      assert bytes[at..end] == bytes[at..next] + bytes[next..end];
    }
  }

  lemma {:induction false} TermsComplete(bytes: seq<Byte>, at: nat, ts: seq<Term>, enc: TermEncoding, hash: KeyHash, offset: U64, previous: Option<Key>)
    requires at <= |bytes| && GoodTerms(ts, enc, hash, offset, previous) && KeysFit(ts) && bytes[at..] == Records(ts, enc)
    ensures TermsFrom(bytes, at, |ts|, enc, hash, offset, previous) == Ok((ts, |bytes|))
    decreases |ts|
  {
    hide OneTerm, Record, Less;
    if ts != [] {
      var t, rest := ts[0], Records(ts[1..], enc);
      OneTermComplete(bytes, at, enc, hash, offset, t, rest);
      SplitAt(bytes, at, Record(t, enc), rest);
      AfterFits(t, enc, hash, offset);
      TermsComplete(bytes, at + |Record(t, enc)|, ts[1..], enc, hash, After(t, enc, offset), Some(t.key));
      assert ts == [t] + ts[1..];
    }
  }

  lemma {:induction false} AfterFits(t: Term, enc: TermEncoding, hash: KeyHash, offset: U64)
    requires Good(t, enc, hash, offset)
    ensures After(t, enc, offset) <= U64_MAX
  {
  }

  function MinimumRecord(enc: TermEncoding): nat { if enc.Legacy? then 80 else 3 }

  lemma {:induction false} TermsTakeBytes(bytes: seq<Byte>, at: nat, n: nat, enc: TermEncoding, hash: KeyHash, offset: U64, previous: Option<Key>)
    requires at <= |bytes| && TermsFrom(bytes, at, n, enc, hash, offset, previous).Ok? && SixteenBytes(hash)
    ensures n * MinimumRecord(enc) <= |bytes| - at
    decreases n
  {
    hide OneTerm, Less;
    if n > 0 {
      var (t, next) := OneTerm(bytes, at, enc, hash, offset).value;
      OneTermSound(bytes, at, enc, hash, offset);
      RecordSize(t, enc, hash, offset);
      assert |bytes[at..next]| == next - at;
      TermsTakeBytes(bytes, next, n - 1, enc, hash, After(t, enc, offset), Some(t.key));
      Mul(n, MinimumRecord(enc));
    }
  }

  lemma {:induction false} RecordSize(t: Term, enc: TermEncoding, hash: KeyHash, offset: nat)
    requires Good(t, enc, hash, offset)
    ensures |Record(t, enc)| > MinimumRecord(enc) || (enc.Compact? && |Record(t, enc)| >= 3)
  {
    hide Write, Le, Words;
  }

  /** The bytes are the section of these terms, and the terms are acceptable. */
  ghost predicate SectionOf(bytes: seq<Byte>, ts: seq<Term>, enc: TermEncoding, hash: KeyHash) {
    |ts| <= U64_MAX && GoodTerms(ts, enc, hash, 0, None) && KeysFit(ts) && bytes == Section(ts, enc)
  }

  ghost function DecodeTermsSpec(bytes: seq<Byte>, enc: TermEncoding, hash: KeyHash, maxCount: nat, maxSize: nat): Result<seq<Term>> {
    if |bytes| > maxSize || |bytes| < 8 || Unle(bytes[..8]) > maxCount then Err
    else match TermsFrom(bytes, 8, Unle(bytes[..8]), enc, hash, 0, None)
      case Err => Err
      case Ok((ts, end)) => if end == |bytes| then Ok(ts) else Err
  }

  /** Decoding and encoding are exact inverses on acceptable term sections. */
  lemma {:induction false} TermsExact(bytes: seq<Byte>, enc: TermEncoding, hash: KeyHash, maxCount: U64, maxSize: U64, ts: seq<Term>)
    requires SixteenBytes(hash)
    ensures DecodeTermsSpec(bytes, enc, hash, maxCount, maxSize) == Ok(ts)
            <==> SectionOf(bytes, ts, enc, hash) && |ts| <= maxCount && |bytes| <= maxSize
  {
    hide TermsFrom, Records, GoodTerms, Le, Unle, Pow256;
    Widths();
    if DecodeTermsSpec(bytes, enc, hash, maxCount, maxSize) == Ok(ts) {
      TermsSound(bytes, 8, Unle(bytes[..8]), enc, hash, 0, None);
      LeOfUnle(bytes[..8]);
      assert bytes == bytes[..8] + bytes[8..] && bytes[8..|bytes|] == bytes[8..];
    }
    if SectionOf(bytes, ts, enc, hash) && |ts| <= maxCount && |bytes| <= maxSize {
      UnleOfLe(|ts|, 8);
      assert bytes[..8] == Le(|ts|, 8) && bytes[8..] == Records(ts, enc);
      TermsComplete(bytes, 8, ts, enc, hash, 0, None);
    }
  }

  /** In the compact layout each offset is the sum of the sizes before it. */
  lemma {:induction false} CompactOffsets(ts: seq<Term>, hash: KeyHash, offset: nat, previous: Option<Key>, i: nat)
    requires GoodTerms(ts, Compact, hash, offset, previous) && i < |ts|
    ensures ts[i].postingOffset == offset + SizesBefore(ts, i)
    decreases |ts|
  {
    hide Less;
    if i > 0 {
      CompactOffsets(ts[1..], hash, offset + ts[0].postingSize, Some(ts[0].key), i - 1);
      SizesShift(ts, i);
    }
  }

  function SizesBefore(ts: seq<Term>, n: nat): nat
    requires n <= |ts|
  {
    if n == 0 then 0 else SizesBefore(ts, n - 1) + ts[n - 1].postingSize
  }

  lemma {:induction false} SizesShift(ts: seq<Term>, n: nat)
    requires 0 < n <= |ts|
    ensures SizesBefore(ts, n) == ts[0].postingSize + SizesBefore(ts[1..], n - 1)
    decreases n
  {
    if n > 1 { SizesShift(ts, n - 1); }
  }

  // ----- the loops -----

  method EncodeTerm(t: Term, enc: TermEncoding, output: seq<Byte>) returns (bytes: seq<Byte>)
    requires |t.key| <= U64_MAX
    ensures bytes == output + Record(t, enc)
  {
    hide Write, Words, Le;
    bytes := output;
    match enc {
      case Legacy =>
        bytes := bytes + Le(|t.key|, 8);
        bytes := bytes + t.key + t.keyHash + Words(Stats(t), 8);
      case Compact =>
        bytes := WriteVaruintSidecar(|t.key|, bytes);
        bytes := bytes + t.key;
        bytes := WriteVaruintSidecar(t.granuleFrequency, bytes);
        bytes := WriteVaruintSidecar(t.postingSize, bytes);
    }
  }

  method EncodeTerms(ts: seq<Term>, enc: TermEncoding) returns (bytes: seq<Byte>)
    requires |ts| <= U64_MAX && KeysFit(ts)
    ensures bytes == Section(ts, enc)
  {
    hide Record, Le;
    bytes := Le(|ts|, 8);
    ghost var all := Section(ts, enc);
    assert ts[0..] == ts;
    for i := 0 to |ts|
      invariant KeysFit(ts[i..]) && bytes + Records(ts[i..], enc) == all
    {
      assert ts[i..][0] == ts[i] && ts[i..][1..] == ts[i + 1..];
      ghost var before, rest := bytes, Records(ts[i + 1..], enc);
      bytes := EncodeTerm(ts[i], enc, bytes);
      assert before + (Record(ts[i], enc) + rest) == (before + Record(ts[i], enc)) + rest;
    }
    assert bytes + [] == bytes;
  }

  method DecodeTerms(bytes: seq<Byte>, enc: TermEncoding, hash: KeyHash, maxCount: U64, maxSize: U64) returns (r: Result<seq<Term>>)
    requires SixteenBytes(hash)
    ensures r == DecodeTermsSpec(bytes, enc, hash, maxCount, maxSize)
  {
    hide OneTerm, Unle, Less, SixteenBytes;
    if |bytes| > maxSize { return Err; }
    if |bytes| < 8 { return Err; }
    var count := Unle(bytes[..8]);
    if count > maxCount { return Err; }
    ghost var all := TermsFrom(bytes, 8, count, enc, hash, 0, None);
    if count > (|bytes| - 8) / MinimumRecord(enc) {
      TooFewBytes(bytes, count, enc, hash);
      return Err;
    }
    hide TermsFrom, Prepend, After;
    var ts: seq<Term> := [];
    var cursor, offset: U64, previous: Option<Key> := 8, 0, None;
    PrependNothing(all);
    for i := 0 to count
      invariant 8 <= cursor <= |bytes| && |ts| == i
      invariant all == Prepend(ts, TermsFrom(bytes, cursor, count - i, enc, hash, offset, previous))
    {
      PrependStep(ts, bytes, cursor, count - i, enc, hash, offset, previous);
      var term := DecodeTerm(bytes, cursor, enc, hash, offset);
      if term.Err? { return Err; }
      var (t, next) := term.value;
      if !Above(previous, t.key) { return Err; }
      if After(t, enc, offset) > U64_MAX { return Err; }
      ts := ts + [t];
      cursor, offset, previous := next, After(t, enc, offset), Some(t.key);
    }
    PrependEnd(ts, bytes, cursor, enc, hash, offset, previous);
    if cursor != |bytes| { return Err; }
    return Ok(ts);
  }

  function Prepend(ts: seq<Term>, r: Result<(seq<Term>, nat)>): Result<(seq<Term>, nat)> {
    match r
    case Err => Err
    case Ok((rest, end)) => Ok((ts + rest, end))
  }

  lemma {:induction false} PrependNothing(r: Result<(seq<Term>, nat)>)
    ensures Prepend([], r) == r
  {
    if r.Ok? { assert [] + r.value.0 == r.value.0; }
  }

  lemma {:induction false} PrependEnd(ts: seq<Term>, bytes: seq<Byte>, at: nat, enc: TermEncoding, hash: KeyHash, offset: U64, previous: Option<Key>)
    requires at <= |bytes|
    ensures Prepend(ts, TermsFrom(bytes, at, 0, enc, hash, offset, previous)) == Ok((ts, at))
  {
    assert ts + [] == ts;
  }

  lemma {:induction false} PrependStep(ts: seq<Term>, bytes: seq<Byte>, at: nat, n: nat, enc: TermEncoding, hash: KeyHash, offset: U64, previous: Option<Key>)
    requires at <= |bytes| && n > 0
    ensures var all := Prepend(ts, TermsFrom(bytes, at, n, enc, hash, offset, previous));
            match OneTerm(bytes, at, enc, hash, offset)
            case Err => all.Err?
            case Ok((t, next)) =>
              if !Above(previous, t.key) || After(t, enc, offset) > U64_MAX then all.Err?
              else all == Prepend(ts + [t], TermsFrom(bytes, next, n - 1, enc, hash, After(t, enc, offset), Some(t.key)))
  {
    hide OneTerm, Less;
    match OneTerm(bytes, at, enc, hash, offset)
    case Err =>
    case Ok((t, next)) =>
      if Above(previous, t.key) && After(t, enc, offset) <= U64_MAX {
        var tail := TermsFrom(bytes, next, n - 1, enc, hash, After(t, enc, offset), Some(t.key));
        if tail.Ok? { assert ts + ([t] + tail.value.0) == (ts + [t]) + tail.value.0; }
      }
  }

  lemma {:induction false} TooFewBytes(bytes: seq<Byte>, count: nat, enc: TermEncoding, hash: KeyHash)
    requires |bytes| >= 8 && count > (|bytes| - 8) / MinimumRecord(enc) && SixteenBytes(hash)
    ensures TermsFrom(bytes, 8, count, enc, hash, 0, None).Err?
  {
    hide TermsFrom;
    var available, m := |bytes| - 8, MinimumRecord(enc);
    MulGrows(available / m + 1, count, m);
    assert available < (available / m + 1) * m;
    if TermsFrom(bytes, 8, count, enc, hash, 0, None).Ok? { TermsTakeBytes(bytes, 8, count, enc, hash, 0, None); }
  }

  lemma {:induction false} MulGrows(a: nat, b: nat, m: nat)
    requires a <= b
    ensures a * m <= b * m
    decreases b - a
  {
    if a < b { MulGrows(a, b - 1, m); Mul(b, m); }
  }

  method DecodeTerm(bytes: seq<Byte>, at: nat, enc: TermEncoding, hash: KeyHash, offset: U64) returns (r: Result<(Term, nat)>)
    requires at <= |bytes|
    ensures r == OneTerm(bytes, at, enc, hash, offset)
  {
    hide Parse, Unle, Unwords;
    var length := KeyLengthRead(bytes, at, enc);
    if length.None? { return Err; }
    var (n, start) := length.value;
    if n == 0 { return Err; }
    if start + n > |bytes| { return Err; }
    var key := bytes[start..start + n];
    var read: Result<(Term, nat)>;
    match enc {
      case Legacy => read := LegacyTail(bytes, start + n, key);
      case Compact =>
        var frequency := ReadSidecar(bytes, start + n);
        if frequency.None? { return Err; }
        var size := ReadSidecar(bytes, frequency.value.1);
        if size.None? { return Err; }
        if offset + size.value.0 > U64_MAX { return Err; }
        read := Ok((Term(key, hash(key), 0, frequency.value.0, offset, size.value.0, 0, 0, 0), size.value.1));
    }
    if read.Err? { return Err; }
    var t := read.value.0;
    if t.granuleFrequency == 0 || t.postingSize == 0 || t.flags != 0 || (enc.Legacy? && t.keyHash != hash(t.key)) { return Err; }
    return read;
  }

  method KeyLengthRead(bytes: seq<Byte>, at: nat, enc: TermEncoding) returns (r: Option<(U64, nat)>)
    requires at <= |bytes|
    ensures r == KeyLength(bytes, at, enc)
  {
    hide Parse, Unle;
    match enc
    case Legacy =>
      if at + 8 > |bytes| || Unle(bytes[at..at + 8]) > U64_MAX { return None; }
      return Some((Unle(bytes[at..at + 8]), at + 8));
    case Compact => r := ReadSidecar(bytes, at);
  }
}
