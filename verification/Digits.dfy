/** Digits of a number in a base, by position. */
module Digits {

  function Power(base: nat, k: nat): (p: nat)
    requires base > 0
    ensures p > 0
  {
    if k == 0 then 1 else Scaled(base, Power(base, k - 1)); base * Power(base, k - 1)
  }

  /** The digit of weight `base` to the `k`. */
  function Digit(v: nat, base: nat, k: nat): (d: nat)
    requires base > 0
    ensures d < base
  {
    v / Power(base, k) % base
  }

  lemma {:induction false} Scaled(x: int, d: nat)
    ensures x >= 1 ==> x * d >= d
    ensures x <= -1 ==> x * d + d <= 0
  {
    if x >= 1 { assert x * d == (x - 1) * d + d; }
    if x <= -1 { assert x * d == (x + 1) * d - d; }
  }

  lemma {:induction false} QuotientIs(v: nat, d: nat, q: nat, r: nat)
    requires d > 0 && v == d * q + r && r < d
    ensures v / d == q
  {
    var p, rest := v / d, v % d;
    assert v == d * p + rest;
    assert (p - q) * d == r - rest;
    Scaled(p - q, d);
  }

  lemma {:induction false} QuotientOfQuotient(v: nat, base: nat, p: nat)
    requires base > 0 && p > 0
    ensures base * p > 0 && v / base / p == v / (base * p)
  {
    Divided(v, base);
    Divided(v / base, p);
    Composed(v, base, p, v / base, v % base, v / base / p, v / base % p);
  }

  lemma {:induction false} Divided(v: nat, d: nat)
    requires d > 0
    ensures v == d * (v / d) + v % d && v / d >= 0
  {
  }

  lemma {:induction false} Composed(v: nat, base: nat, p: nat, a: nat, low: nat, q: nat, r: nat)
    requires v == base * a + low && a == p * q + r && low < base && r < p
    ensures base * p > 0 && v / (base * p) == q
  {
    Scaled(base, p);
    Remains(base, p, r, low);
    Distribute(base, p, q, r);
    QuotientIs(v, base * p, q, base * r + low);
  }

  lemma {:induction false} Distribute(base: nat, p: nat, q: nat, r: nat)
    ensures base * (p * q + r) == (base * p) * q + base * r
  {
  }

  lemma {:induction false} Remains(base: nat, p: nat, r: nat, low: nat)
    requires r < p && low < base
    ensures 0 <= base * r + low < base * p
  {
    Scaled(p - r, base);
    assert base * p == base * r + (p - r) * base;
  }

  /** The digits above the lowest are those of the quotient. */
  lemma {:induction false} HigherDigit(v: nat, base: nat, k: nat)
    requires base > 0
    ensures Digit(v, base, k + 1) == Digit(v / base, base, k)
    ensures Digit(v, base, 0) == v % base
  {
    QuotientOfQuotient(v, base, Power(base, k));
  }
}
