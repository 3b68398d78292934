/** UTF-8 from the other side: a text is valid exactly when it is some sequence of Unicode scalar values, encoded. */
module Utf8Scalars {
  import opened Bytes
  import opened Utf8

  /** A code point that is no surrogate. */
  predicate IsScalar(n: nat) { n <= 0x10FFFF && !(0xD800 <= n <= 0xDFFF) }

  /** The bits of a scalar value spread over one to four bytes, as in section 3 of RFC 3629. */
  function Encoding(n: nat): (s: seq<Byte>)
    requires IsScalar(n)
    ensures 1 <= |s| <= 4
  {
    if n < 0x80 then [n]
    else if n < 0x800 then [0xC0 + n / 64, 0x80 + n % 64]
    else if n < 0x1_0000 then [0xE0 + n / 64 / 64, 0x80 + n / 64 % 64, 0x80 + n % 64]
    else [0xF0 + n / 64 / 64 / 64, 0x80 + n / 64 / 64 % 64, 0x80 + n / 64 % 64, 0x80 + n % 64]
  }

  function Pair(a: int, b: int): int { (a - 0xC0) * 64 + (b - 0x80) }

  function Triple(a: int, b: int, c: int): int { ((a - 0xE0) * 64 + (b - 0x80)) * 64 + (c - 0x80) }

  function Quadruple(a: int, b: int, c: int, d: int): int { (((a - 0xF0) * 64 + (b - 0x80)) * 64 + (c - 0x80)) * 64 + (d - 0x80) }

  /** The scalar value written at `p`. */
  function ScalarAt(t: seq<Byte>, p: nat): (n: nat)
    requires ScalarLen(t, p) > 0
    ensures IsScalar(n)
  {
    match ScalarLen(t, p)
    case 1 => t[p]
    case 2 => Pair(t[p], t[p + 1])
    case 3 => Triple(t[p], t[p + 1], t[p + 2])
    case _ => Quadruple(t[p], t[p + 1], t[p + 2], t[p + 3])
  }

  lemma {:induction false} Digits64(high: nat, low: nat)
    requires low < 64
    ensures (high * 64 + low) / 64 == high && (high * 64 + low) % 64 == low
  {
  }

  lemma {:induction false} PairWritten(a: Byte, b: Byte)
    requires 0xC2 <= a <= 0xDF && 0x80 <= b <= 0xBF
    ensures 0x80 <= Pair(a, b) < 0x800 && Encoding(Pair(a, b)) == [a, b]
  {
    Digits64(a - 0xC0, b - 0x80);
  }

  /** Reading off the digits of two, and three, groups of six bits. */
  lemma {:induction false} Split64(x: nat, y: nat, z: nat, n: nat)
    requires y < 64 && z < 64 && n == (x * 64 + y) * 64 + z
    ensures n / 64 == x * 64 + y && n / 64 / 64 == x && n / 64 % 64 == y && n % 64 == z
  {
    Digits64(x * 64 + y, z);
    Digits64(x, y);
  }

  lemma {:induction false} ThreeBytes(n: nat)
    requires IsScalar(n) && 0x800 <= n < 0x1_0000
    ensures n / 64 / 64 < 16 && Encoding(n) == [0xE0 + n / 64 / 64, 0x80 + n / 64 % 64, 0x80 + n % 64]
  {
  }

  lemma {:induction false} FourBytes(n: nat)
    requires 0x1_0000 <= n <= 0x10FFFF
    ensures n / 64 / 64 / 64 < 8 && Encoding(n) == [0xF0 + n / 64 / 64 / 64, 0x80 + n / 64 / 64 % 64, 0x80 + n / 64 % 64, 0x80 + n % 64]
  {
  }

  lemma {:induction false} TripleWritten(a: Byte, b: Byte, c: Byte)
    requires 0xE0 <= a <= 0xEF && (if a == 0xE0 then 0xA0 else 0x80) <= b <= (if a == 0xED then 0x9F else 0xBF) && 0x80 <= c <= 0xBF
    ensures 0x800 <= Triple(a, b, c) < 0x1_0000 && IsScalar(Triple(a, b, c)) && Encoding(Triple(a, b, c)) == [a, b, c]
  {
    hide Encoding;
    Split64(a - 0xE0, b - 0x80, c - 0x80, Triple(a, b, c));
    ThreeBytes(Triple(a, b, c));
  }

  lemma {:induction false} QuadrupleWritten(a: Byte, b: Byte, c: Byte, d: Byte)
    requires 0xF0 <= a <= 0xF4 && (if a == 0xF0 then 0x90 else 0x80) <= b <= (if a == 0xF4 then 0x8F else 0xBF)
    requires 0x80 <= c <= 0xBF && 0x80 <= d <= 0xBF
    ensures 0x1_0000 <= Quadruple(a, b, c, d) <= 0x10FFFF && Encoding(Quadruple(a, b, c, d)) == [a, b, c, d]
  {
    hide Encoding;
    var n, mid := Quadruple(a, b, c, d), Triple(a - 0x10, b, c);
    Split64(a - 0xF0, b - 0x80, c - 0x80, mid);
    Digits64(mid, d - 0x80);
    FourBytes(n);
  }

  lemma {:induction false} ScalarWritten(t: seq<Byte>, p: nat)
    requires ScalarLen(t, p) > 0
    ensures t[p..p + ScalarLen(t, p)] == Encoding(ScalarAt(t, p))
  {
    hide Encoding, Pair, Triple, Quadruple;
    var len := ScalarLen(t, p);
    if len == 1 {
      OneByte(t[p]);
      assert t[p..p + 1] == [t[p]];
    } else if len == 2 {
      PairWritten(t[p], t[p + 1]);
      assert t[p..p + 2] == [t[p], t[p + 1]];
    } else if len == 3 {
      TripleWritten(t[p], t[p + 1], t[p + 2]);
      assert t[p..p + 3] == [t[p], t[p + 1], t[p + 2]];
    } else {
      QuadrupleWritten(t[p], t[p + 1], t[p + 2], t[p + 3]);
      assert t[p..p + 4] == [t[p], t[p + 1], t[p + 2], t[p + 3]];
    }
  }

  lemma {:induction false} OneByte(b: Byte)
    requires b < 0x80
    ensures Encoding(b) == [b]
  {
  }

  lemma {:induction false} WrittenScalar(t: seq<Byte>, p: nat, n: nat)
    requires IsScalar(n) && p + |Encoding(n)| <= |t| && t[p..p + |Encoding(n)|] == Encoding(n)
    ensures ScalarLen(t, p) == |Encoding(n)|
  {
    EncodingBounds(n);
    hide Encoding;
    var s, slice := Encoding(n), t[p..p + |Encoding(n)|];
    assert t[p] == slice[0] && (|s| > 1 ==> t[p + 1] == slice[1]) && (|s| > 2 ==> t[p + 2] == slice[2]) && (|s| > 3 ==> t[p + 3] == slice[3]);
  }

  /** The byte ranges of section 4 of RFC 3629. */
  lemma {:induction false} EncodingBounds(n: nat)
    requires IsScalar(n)
    ensures var s := Encoding(n);
            && (forall i :: 0 < i < |s| ==> 0x80 <= s[i] <= 0xBF)
            && match |s|
               case 1 => s[0] < 0x80
               case 2 => 0xC2 <= s[0] <= 0xDF
               case 3 => 0xE0 <= s[0] <= 0xEF && (s[0] == 0xE0 ==> s[1] >= 0xA0) && (s[0] == 0xED ==> s[1] <= 0x9F)
               case _ => 0xF0 <= s[0] <= 0xF4 && (s[0] == 0xF0 ==> s[1] >= 0x90) && (s[0] == 0xF4 ==> s[1] <= 0x8F)
  {
  }

  /** A well-formed scalar at a position is the encoding of a scalar value, and nothing else is. */
  lemma {:induction false} ScalarLenIs(t: seq<Byte>, p: nat, len: nat)
    ensures ScalarLen(t, p) == len > 0 <==>
              exists n :: IsScalar(n) && |Encoding(n)| == len && p + len <= |t| && t[p..p + len] == Encoding(n)
  {
    hide ScalarLen, Encoding, ScalarAt, IsScalar;
    if ScalarLen(t, p) == len > 0 { ScalarWritten(t, p); }
    if exists n :: IsScalar(n) && |Encoding(n)| == len && p + len <= |t| && t[p..p + len] == Encoding(n) {
      var n :| IsScalar(n) && |Encoding(n)| == len && p + len <= |t| && t[p..p + len] == Encoding(n);
      WrittenScalar(t, p, n);
    }
  }

  predicate AllScalars(ns: seq<nat>) { forall i :: 0 <= i < |ns| ==> IsScalar(ns[i]) }

  function Encoded(ns: seq<nat>): seq<Byte>
    requires AllScalars(ns)
  {
    if ns == [] then [] else Encoding(ns[0]) + Encoded(ns[1..])
  }

  lemma {:induction false} ValidWritten(t: seq<Byte>, p: nat) returns (ns: seq<nat>)
    requires ValidFrom(t, p)
    ensures p <= |t| && AllScalars(ns) && t[p..] == Encoded(ns)
    decreases |t| - p
  {
    hide ScalarLen, Encoding, ScalarAt, IsScalar;
    if p == |t| {
      ns := [];
    } else {
      var len := ScalarLen(t, p);
      var rest := ValidWritten(t, p + len);
      ScalarWritten(t, p);
      ns := [ScalarAt(t, p)] + rest;
      assert t[p..] == t[p..p + len] + t[p + len..];
      assert ns[1..] == rest;
    }
  }

  lemma {:induction false} WrittenValid(t: seq<Byte>, p: nat, ns: seq<nat>)
    requires p <= |t| && AllScalars(ns) && t[p..] == Encoded(ns)
    ensures ValidFrom(t, p)
    decreases |ns|
  {
    hide ScalarLen, Encoding, IsScalar;
    if ns != [] {
      var first, rest := Encoding(ns[0]), Encoded(ns[1..]);
      var len := |first|;
      assert t[p..p + len] == t[p..][..len] == first && t[p + len..] == t[p..][len..] == rest;
      WrittenScalar(t, p, ns[0]);
      WrittenValid(t, p + len, ns[1..]);
    }
  }

  /** The accepted texts are exactly the encoded sequences of scalar values. */
  lemma {:induction false} ValidIff(t: seq<Byte>)
    ensures Valid(t) <==> exists ns :: AllScalars(ns) && t == Encoded(ns)
  {
    hide ValidFrom, Encoded, AllScalars;
    assert t[0..] == t;
    if Valid(t) { var ns := ValidWritten(t, 0); }
    if exists ns :: AllScalars(ns) && t == Encoded(ns) {
      var ns :| AllScalars(ns) && t == Encoded(ns);
      WrittenValid(t, 0, ns);
    }
  }
}
