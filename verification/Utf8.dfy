/** UTF-8 as in section 4 of RFC 3629, the language `str::from_utf8` accepts. */
module Utf8 {
  import opened Bytes

  /** `byte & 0b1100_0000 == 0b1000_0000` */
  predicate IsContinuation(b: Byte) { 0x80 <= b < 0xC0 }

  predicate Between(t: seq<Byte>, p: nat, lo: Byte, hi: Byte) {
    p < |t| && lo <= t[p] <= hi
  }

  /** Length of the well-formed scalar at `p`, or zero. */
  function ScalarLen(t: seq<Byte>, p: nat): (n: nat)
    ensures n <= 4 && (n > 0 ==> p + n <= |t| && !IsContinuation(t[p]))
    ensures forall q :: p < q < p + n ==> IsContinuation(t[q])
    ensures n > 1 ==> t[p] >= 0xC2
    ensures n == 1 <==> p < |t| && t[p] < 0x80
  {
    if p >= |t| then 0
    else
      var b := t[p];
      if b < 0x80 then 1
      else if 0xC2 <= b <= 0xDF && Between(t, p + 1, 0x80, 0xBF) then 2
      else if && 0xE0 <= b <= 0xEF
              && Between(t, p + 1, if b == 0xE0 then 0xA0 else 0x80, if b == 0xED then 0x9F else 0xBF)
              && Between(t, p + 2, 0x80, 0xBF) then 3
      else if && 0xF0 <= b <= 0xF4
              && Between(t, p + 1, if b == 0xF0 then 0x90 else 0x80, if b == 0xF4 then 0x8F else 0xBF)
              && Between(t, p + 2, 0x80, 0xBF) && Between(t, p + 3, 0x80, 0xBF) then 4
      else 0
  }

  predicate ValidFrom(t: seq<Byte>, p: nat)
    decreases |t| - p
  {
    p <= |t| && (p == |t| || (ScalarLen(t, p) > 0 && ValidFrom(t, p + ScalarLen(t, p))))
  }

  predicate Valid(t: seq<Byte>) { ValidFrom(t, 0) }

  /** The source's boundary test: not in front of a continuation byte. */
  predicate IsBoundary(t: seq<Byte>, p: nat) {
    p == 0 || p == |t| || (p < |t| && !IsContinuation(t[p]))
  }

  /** In valid text the byte test finds exactly the scalar boundaries. */
  lemma {:induction false} BoundaryIsValid(t: seq<Byte>, from: nat, p: nat)
    requires ValidFrom(t, from) && from <= p <= |t| && IsBoundary(t, p)
    ensures ValidFrom(t, p)
    decreases p - from
  {
    if from < p { BoundaryIsValid(t, from + ScalarLen(t, from), p); }
  }

  lemma {:induction false} ScalarLenLocal(t: seq<Byte>, u: seq<Byte>, p: nat, q: nat)
    requires p < |t| && ScalarLen(t, p) > 0 && q + ScalarLen(t, p) <= |u|
    requires t[p..p + ScalarLen(t, p)] == u[q..q + ScalarLen(t, p)]
    ensures ScalarLen(u, q) == ScalarLen(t, p)
  {
    var n := ScalarLen(t, p);
    var a, b := t[p..p + n], u[q..q + n];
    assert a[0] == b[0] && (n > 1 ==> a[1] == b[1]) && (n > 2 ==> a[2] == b[2]) && (n > 3 ==> a[3] == b[3]);
  }

  /** Any stretch of valid text between two boundaries is itself valid. */
  lemma {:induction false} SliceValid(t: seq<Byte>, a: nat, p: nat, b: nat)
    requires ValidFrom(t, p) && a <= p <= b <= |t| && IsBoundary(t, b)
    ensures ValidFrom(t[a..b], p - a)
    decreases b - p
  {
    if p < b {
      var n := ScalarLen(t, p);
      assert p + n <= b;
      assert t[p..p + n] == t[a..b][p - a..p - a + n];
      ScalarLenLocal(t, t[a..b], p, p - a);
      SliceValid(t, a, p + n, b);
    }
  }

  /** Joining two valid texts gives a valid text. */
  lemma {:induction false} ConcatValid(s: seq<Byte>, u: seq<Byte>, p: nat)
    requires ValidFrom(s, p) && Valid(u)
    ensures ValidFrom(s + u, p)
    decreases |s| - p
  {
    if p == |s| {
      ShiftValid(s, u, 0);
    } else {
      var n := ScalarLen(s, p);
      assert s[p..p + n] == (s + u)[p..p + n];
      ScalarLenLocal(s, s + u, p, p);
      ConcatValid(s, u, p + n);
    }
  }

  lemma {:induction false} ShiftValid(s: seq<Byte>, u: seq<Byte>, p: nat)
    requires ValidFrom(u, p)
    ensures ValidFrom(s + u, |s| + p)
    decreases |u| - p
  {
    if p < |u| {
      var n := ScalarLen(u, p);
      assert u[p..p + n] == (s + u)[|s| + p..|s| + p + n];
      ScalarLenLocal(u, s + u, p, |s| + p);
      ShiftValid(s, u, p + n);
    }
  }

  /** A byte below 0x80 is a whole scalar, so the position after it is a boundary. */
  lemma {:induction false} AfterAscii(t: seq<Byte>, from: nat, p: nat)
    requires ValidFrom(t, from) && from <= p < |t| && t[p] < 0x80
    ensures IsBoundary(t, p) && IsBoundary(t, p + 1)
    decreases p - from
  {
    var n := ScalarLen(t, from);
    if from == p {
      assert n == 1 && ValidFrom(t, p + 1);
    } else {
      assert from + n <= p;
      AfterAscii(t, from + n, p);
    }
  }
}
