/**
 * Unsigned base-128 varints. The container and the sidecar carry three
 * separately written readers and two writers; all are proved to agree with one
 * grammar. `byte & 0x7f` is written `b % 128`, `byte & 0x80 == 0` is `b < 128`,
 * and an `|=` of disjoint bits is written as an addition.
 */
module Varint {
  import opened Bytes

  /** `v << 7 * k` */
  function Shl(v: nat, k: nat): (r: nat) {
    if k == 0 then v else 128 * Shl(v, k - 1)
  }

  /** The minimal little-endian base-128 spelling of a value. */
  function Write(v: nat): (bytes: seq<Byte>)
    ensures |bytes| >= 1
    decreases v
  {
    if v < 128 then [v] else [128 + v % 128] + Write(v / 128)
  }

  /** Reads groups up to the first byte without a continuation bit. */
  function Raw(bytes: seq<Byte>, at: nat): (r: Option<(nat, nat)>)
    ensures r.Some? ==> at < r.value.1 <= |bytes| && bytes[r.value.1 - 1] < 128
    decreases |bytes| - at
  {
    if at >= |bytes| then None
    else if bytes[at] < 128 then Some((bytes[at], at + 1))
    else match Raw(bytes, at + 1)
      case None => None
      case Some((v, next)) => Some((bytes[at] - 128 + 128 * v, next))
  }

  /** The accepted language: minimal spellings of u64 values. */
  function Parse(bytes: seq<Byte>, at: nat): (r: Option<(U64, nat)>)
    ensures r.Some? ==> at < r.value.1 <= |bytes|
  {
    match Raw(bytes, at)
    case None => None
    case Some((v, next)) =>
      if v <= U64_MAX && (next == at + 1 || bytes[next - 1] != 0) then Some((v, next)) else None
  }

  lemma {:induction false} RawOfWrite(bytes: seq<Byte>, at: nat, v: nat)
    requires at + |Write(v)| <= |bytes| && bytes[at..at + |Write(v)|] == Write(v)
    ensures Raw(bytes, at) == Some((v, at + |Write(v)|))
    ensures v >= 128 ==> bytes[at + |Write(v)| - 1] != 0
    decreases v
  {
    assert bytes[at] == Write(v)[0];
    if v >= 128 {
      var rest := Write(v / 128);
      assert bytes[at + 1..at + 1 + |rest|] == bytes[at..at + |Write(v)|][1..] == rest;
      RawOfWrite(bytes, at + 1, v / 128);
      if v / 128 < 128 { assert bytes[at + 1] == v / 128; }
    }
  }

  lemma {:induction false} WriteOfRaw(bytes: seq<Byte>, at: nat)
    requires Raw(bytes, at).Some?
    requires var next := Raw(bytes, at).value.1; next == at + 1 || bytes[next - 1] != 0
    ensures var (v, next) := Raw(bytes, at).value; bytes[at..next] == Write(v)
    ensures var (v, next) := Raw(bytes, at).value; bytes[next - 1] != 0 ==> v >= 1
    decreases |bytes| - at
  {
    if bytes[at] >= 128 {
      WriteOfRaw(bytes, at + 1);
      var (v, next) := Raw(bytes, at + 1).value;
      assert bytes[at..next] == [bytes[at]] + bytes[at + 1..next];
      var w := bytes[at] - 128 + 128 * v;
      assert w / 128 == v && w % 128 == bytes[at] - 128;
    }
  }

  /** The reader's language is exactly the writer's image, one spelling per value. */
  lemma {:induction false} ParseIffWritten(bytes: seq<Byte>, at: nat, v: U64, next: nat)
    ensures Parse(bytes, at) == Some((v, next))
            <==> next == at + |Write(v)| <= |bytes| && bytes[at..next] == Write(v)
  {
    if Parse(bytes, at) == Some((v, next)) { WriteOfRaw(bytes, at); }
    if next == at + |Write(v)| <= |bytes| && bytes[at..next] == Write(v) { RawOfWrite(bytes, at, v); }
  }

  lemma {:induction false} ParseWritten(bytes: seq<Byte>, at: nat, v: U64)
    requires at + |Write(v)| <= |bytes| && bytes[at..at + |Write(v)|] == Write(v)
    ensures Parse(bytes, at) == Some((v, at + |Write(v)|))
  {
    ParseIffWritten(bytes, at, v, at + |Write(v)|);
  }

  lemma {:induction false} ShlAdd(a: nat, b: nat, k: nat)
    ensures Shl(a + b, k) == Shl(a, k) + Shl(b, k)
  {
    if k > 0 { ShlAdd(a, b, k - 1); }
  }

  lemma {:induction false} ShlTimes128(v: nat, k: nat)
    ensures Shl(128 * v, k) == Shl(v, k + 1)
  {
    if k > 0 { ShlTimes128(v, k - 1); }
  }

  lemma {:induction false} ShlNine(v: nat)
    ensures Shl(v, 9) == 0x8000_0000_0000_0000 * v
  {
    assert Shl(v, 1) == 128 * Shl(v, 0);
    assert Shl(v, 3) == 128 * Shl(v, 2) && Shl(v, 5) == 128 * Shl(v, 4);
    assert Shl(v, 7) == 128 * Shl(v, 6) && Shl(v, 9) == 128 * Shl(v, 8);
  }

  lemma {:induction false} ShlMonotone(i: nat, j: nat)
    requires i <= j
    ensures Shl(1, i) <= Shl(1, j)
    decreases j - i
  {
    if i < j { ShlMonotone(i, j - 1); }
  }

  /** One more group stays below the next power and, below bit 63, inside u64. */
  lemma {:induction false} ShlGroup(value: nat, low: nat, k: nat)
    requires value < Shl(1, k) && low < 128 && k <= 9
    ensures value + Shl(low, k) < Shl(1, k + 1)
    ensures k <= 8 || low <= 1 ==> value + Shl(low, k) <= U64_MAX
    ensures k == 9 && low > 1 ==> value + Shl(low, k) > U64_MAX
  {
    ShlAdd(low, 127 - low, k);
    ShlAdd(127, 1, k);
    ShlTimes128(1, k);
    ShlNine(1);
    ShlNine(low);
    if k <= 8 { ShlMonotone(k + 1, 9); }
  }

  lemma {:induction false} WriteLength(v: nat, k: nat)
    requires k >= 1
    ensures v < Shl(1, k) <==> |Write(v)| <= k
    decreases k
  {
    if k == 1 {
      assert Shl(1, 1) == 128 * Shl(1, 0);
    } else if v >= 128 {
      WriteLength(v / 128, k - 1);
    } else {
      ShlMonotone(1, k);
      assert Shl(1, 1) == 128 * Shl(1, 0);
    }
  }

  /** Every u64 needs at most ten bytes. */
  lemma {:induction false} WriteAtMostTen(v: U64)
    ensures |Write(v)| <= 10
  {
    ShlNine(1);
    assert Shl(1, 10) == 128 * Shl(1, 9);
    WriteLength(v, 10);
  }

  // ----- writers -----

  /** `while value >= 0x80` writer shared in shape by the dense index and search. */
  method WriteVaruint(value: U64, output: seq<Byte>) returns (out: seq<Byte>)
    ensures out == output + Write(value)
  {
    var v := value;
    out := output;
    while v >= 128
      invariant 0 <= v <= U64_MAX
      invariant output + Write(value) == out + Write(v)
    {
      assert out + Write(v) == (out + [v % 128 + 128]) + Write(v / 128);
      out := out + [v % 128 + 128];
      v := v / 128;
    }
    out := out + [v];
  }

  /** The sidecar's writer, which decides continuation after shifting. */
  method WriteVaruintSidecar(value: U64, output: seq<Byte>) returns (out: seq<Byte>)
    ensures out == output + Write(value)
  {
    var v := value;
    out := output;
    var done := false;
    while !done
      invariant 0 <= v <= U64_MAX
      invariant if done then out == output + Write(value) else output + Write(value) == out + Write(v)
      decreases !done, v
    {
      var byte := v % 128;
      var rest := v / 128;
      if rest != 0 {
        assert out + Write(v) == (out + [byte + 128]) + Write(rest);
        byte := byte + 128;
      }
      out := out + [byte];
      v := rest;
      done := v == 0;
    }
  }

  /** Length without writing; the dense index, search and sidecar each repeat this loop. */
  method VaruintLen(value: U64) returns (size: nat)
    ensures size == |Write(value)|
  {
    var v := value;
    size := 1;
    while v >= 128
      invariant 0 <= v
      invariant size + |Write(v)| == 1 + |Write(value)|
    {
      v := v / 128;
      size := size + 1;
    }
  }

  // ----- readers -----

  /** What `Raw` still owes after `k` continuation groups worth `value`. */
  ghost predicate Pending(bytes: seq<Byte>, start: nat, k: nat, value: nat) {
    && value < Shl(1, k)
    && start + k <= |bytes|
    && Raw(bytes, start) == match Raw(bytes, start + k)
                            case None => None
                            case Some((v, next)) => Some((value + Shl(v, k), next))
  }

  lemma {:induction false} PendingStep(bytes: seq<Byte>, start: nat, k: nat, value: nat)
    requires Pending(bytes, start, k, value) && k <= 9
    requires start + k < |bytes| && bytes[start + k] >= 128
    ensures Pending(bytes, start, k + 1, value + Shl(bytes[start + k] - 128, k))
  {
    var low := bytes[start + k] - 128;
    ShlGroup(value, low, k);
    match Raw(bytes, start + k + 1)
    case None =>
    case Some((v, next)) =>
      ShlAdd(low, 128 * v, k);
      ShlTimes128(v, k);
  }

  /** At the final byte, the grammar's verdict is a canonicality and a range test. */
  lemma {:induction false} PendingEnd(bytes: seq<Byte>, start: nat, k: nat, value: nat)
    requires Pending(bytes, start, k, value) && k <= 9
    requires start + k < |bytes| && bytes[start + k] < 128
    ensures Raw(bytes, start) == Some((value + Shl(bytes[start + k], k), start + k + 1))
  {
  }

  /** No accepted spelling is longer than ten bytes. */
  lemma {:induction false} TooLong(bytes: seq<Byte>, start: nat, value: nat)
    requires Pending(bytes, start, 10, value)
    ensures Parse(bytes, start) == None
  {
    if Raw(bytes, start).Some? && Parse(bytes, start).Some? {
      var (v, next) := Parse(bytes, start).value;
      ParseIffWritten(bytes, start, v, next);
      WriteAtMostTen(v);
    }
  }

  /** The verdict of one more byte, shared by the three readers. */
  lemma {:induction false} NextByte(bytes: seq<Byte>, start: nat, k: nat, value: nat)
    requires Pending(bytes, start, k, value) && k <= 9 && start + k < |bytes|
    ensures var byte := bytes[start + k];
            var low := byte % 128;
            && (k <= 8 || low <= 1 ==> value + Shl(low, k) <= U64_MAX)
            && (byte >= 128 && k <= 8 ==> Pending(bytes, start, k + 1, value + Shl(low, k)))
            && (byte >= 128 && k == 9 ==> Parse(bytes, start) == None)
            && (byte < 128 ==> (Parse(bytes, start) ==
                                if (k == 9 && low > 1) || (k > 0 && byte == 0) then None
                                else Some((value + Shl(low, k), start + k + 1))))
  {
    hide Raw;
    var byte := bytes[start + k];
    ShlGroup(value, byte % 128, k);
    if byte >= 128 {
      PendingStep(bytes, start, k, value);
      if k == 9 { TooLong(bytes, start, value + Shl(byte % 128, 9)); }
    } else {
      PendingEnd(bytes, start, k, value);
    }
  }

  lemma {:induction false} PendingStart(bytes: seq<Byte>, start: nat)
    requires start <= |bytes|
    ensures Pending(bytes, start, 0, 0)
  {
  }

  lemma {:induction false} PendingEof(bytes: seq<Byte>, start: nat, k: nat, value: nat)
    requires Pending(bytes, start, k, value) && start + k >= |bytes|
    ensures Parse(bytes, start) == None
  {
  }

  /** Dense Line Index reader: range check at bit 63, last byte must not be zero. */
  method ReadDense(bytes: seq<Byte>, start: nat) returns (r: Option<(U64, nat)>)
    requires start <= |bytes|
    ensures r == Parse(bytes, start)
  {
    hide Raw;
    hide Write;
    var value: U64, k, cursor := 0, 0, start;
    PendingStart(bytes, start);
    while true
      invariant 0 <= k <= 9 && cursor == start + k && Pending(bytes, start, k, value)
      decreases 10 - k
    {
      if cursor >= |bytes| {
        PendingEof(bytes, start, k, value);
        return None;
      }
      NextByte(bytes, start, k, value);
      var byte := bytes[cursor];
      cursor := cursor + 1;
      if k == 9 && byte % 128 > 1 { return None; }
      value := value + Shl(byte % 128, k);
      if byte < 128 {
        if k + 1 > 1 && byte == 0 { return None; }
        return Some((value, cursor));
      }
      k := k + 1;
      if k > 9 { return None; }
    }
  }

  /** A u64 shift by 63 keeps only the lowest bit of the group. */
  function ShlU64(low: nat, k: nat): (r: nat)
    requires low < 128 && k <= 9
    ensures r == Shl(low, k) % 0x1_0000_0000_0000_0000
    ensures k <= 8 || low <= 1 ==> r == Shl(low, k)
  {
    ShlWraps(low, k);
    if k <= 8 then Shl(low, k) else Shl(low % 2, 9)
  }

  lemma {:induction false} ShlWraps(low: nat, k: nat)
    requires low < 128 && k <= 9
    ensures k <= 8 ==> Shl(low, k) == Shl(low, k) % 0x1_0000_0000_0000_0000
    ensures Shl(low % 2, 9) == Shl(low, 9) % 0x1_0000_0000_0000_0000
  {
    ShlMonotone(0, k);
    ShlGroup(0, low, k);
    ShlNine(low);
    ShlNine(low % 2);
    hide Shl;
    var q := low / 2;
    assert low == 2 * q + low % 2;
    assert Shl(low, 9) == q * 0x1_0000_0000_0000_0000 + Shl(low % 2, 9);
  }

  /** Re-encoding and comparing decides exactly the language. */
  lemma {:induction false} MinimalIsVerdict(bytes: seq<Byte>, start: nat, next: nat, value: U64)
    requires start < next <= |bytes|
    requires Parse(bytes, start) == None || Parse(bytes, start) == Some((value, next))
    ensures (Write(value) == bytes[start..next]) == (Parse(bytes, start) == Some((value, next)))
  {
    ParseIffWritten(bytes, start, value, next);
  }

  /** Search reader: bits shifted past 64 are lost, so it re-encodes and compares. */
  method ReadSearch(bytes: seq<Byte>, start: nat) returns (r: Option<(U64, nat)>)
    requires start <= |bytes|
    ensures r == Parse(bytes, start)
  {
    hide Raw;
    hide Write;
    var value: U64, k, cursor := 0, 0, start;
    PendingStart(bytes, start);
    while true
      invariant 0 <= k <= 9 && cursor == start + k && Pending(bytes, start, k, value)
      decreases 10 - k
    {
      if cursor >= |bytes| {
        PendingEof(bytes, start, k, value);
        return None;
      }
      NextByte(bytes, start, k, value);
      var byte := bytes[cursor];
      cursor := cursor + 1;
      ShlGroup(value, byte % 128 % 2, k);
      value := value + ShlU64(byte % 128, k);
      if byte < 128 {
        var minimal := WriteVaruint(value, []);
        MinimalIsVerdict(bytes, start, cursor, value);
        if minimal != bytes[start..cursor] { return None; }
        return Some((value, cursor));
      }
      k := k + 1;
      if k > 9 { return None; }
    }
  }

  /** Comparing only the canonical length also decides the language. */
  lemma {:induction false} LengthIsVerdict(bytes: seq<Byte>, start: nat, k: nat, before: nat)
    requires Pending(bytes, start, k, before) && k <= 9
    requires start + k < |bytes| && bytes[start + k] < 128
    requires k == 9 ==> bytes[start + k] <= 1
    ensures (|Write(before + Shl(bytes[start + k], k))| == k + 1) == Parse(bytes, start).Some?
  {
    NextByte(bytes, start, k, before);
    if k > 0 && bytes[start + k] == 0 {
      ShlZero(k);
      WriteLength(before, k);
    } else {
      ParseIffWritten(bytes, start, before + Shl(bytes[start + k], k), start + k + 1);
    }
  }

  /** Sidecar reader: range check at bit 63, then only the canonical length is compared. */
  method ReadSidecar(bytes: seq<Byte>, start: nat) returns (r: Option<(U64, nat)>)
    requires start <= |bytes|
    ensures r == Parse(bytes, start)
  {
    hide Raw;
    hide Write;
    var value: U64, cursor := 0, start;
    PendingStart(bytes, start);
    for k := 0 to 10
      invariant cursor == start + k
      invariant k <= 9 ==> Pending(bytes, start, k, value)
      invariant k == 10 ==> Parse(bytes, start) == None
    {
      if cursor >= |bytes| {
        PendingEof(bytes, start, k, value);
        return None;
      }
      NextByte(bytes, start, k, value);
      var byte := bytes[cursor];
      cursor := cursor + 1;
      if k == 9 && byte % 128 > 1 { return None; }
      if byte < 128 { LengthIsVerdict(bytes, start, k, value); }
      value := value + Shl(byte % 128, k);
      if byte < 128 {
        var canonical := WriteVaruintSidecar(value, []);
        if |canonical| != cursor - start { return None; }
        return Some((value, cursor));
      }
    }
    return None;
  }

  lemma {:induction false} ShlZero(k: nat)
    ensures Shl(0, k) == 0
  {
    if k > 0 { ShlZero(k - 1); }
  }
}
