/** N-gram keys in terms of scalar values: every stretch of `n` of them, encoded. */
module NgramScalars {
  import opened Bytes
  import opened Utf8
  import opened Utf8Scalars
  import opened Ngrams

  lemma {:induction false} StartsAre(t: seq<Byte>, p: nat, ns: seq<nat>, i: nat)
    requires p <= |t| && AllScalars(ns) && t[p..] == Encoded(ns) && i <= |ns|
    ensures ValidFrom(t, p) && |CharStarts(t, p)| == |ns| + 1 && AllScalars(ns[..i])
    ensures CharStarts(t, p)[i] == p + |Encoded(ns[..i])|
    decreases |ns|
  {
    hide *;
    WrittenValid(t, p, ns);
    if ns == [] {
      NothingWritten(t, p, ns[..i]) by { assert ns[..i] == []; }
    } else {
      FirstWritten(t, p, ns);
      var len := |Encoding(ns[0])|;
      StartsAre(t, p + len, ns[1..], if i == 0 then 0 else i - 1);
      PrefixLength(ns, i);
    }
  }

  lemma {:induction false} NothingWritten(t: seq<Byte>, p: nat, none: seq<nat>)
    requires p <= |t| && ValidFrom(t, p) && t[p..] == Encoded([]) && none == []
    ensures CharStarts(t, p) == [p] && Encoded(none) == []
  {
  }

  /** The first scalar and the rest. */
  lemma {:induction false} FirstWritten(t: seq<Byte>, p: nat, ns: seq<nat>)
    requires p <= |t| && ns != [] && AllScalars(ns) && t[p..] == Encoded(ns) && ValidFrom(t, p)
    ensures IsScalar(ns[0]) && AllScalars(ns[1..])
    ensures var next := p + |Encoding(ns[0])|;
            next <= |t| && t[next..] == Encoded(ns[1..]) && ValidFrom(t, next) && CharStarts(t, p) == [p] + CharStarts(t, next)
  {
    hide ScalarLen, Encoding, IsScalar;
    var len := |Encoding(ns[0])|;
    assert t[p..p + len] == t[p..][..len] && t[p + len..] == t[p..][len..];
    WrittenScalar(t, p, ns[0]);
  }

  lemma {:induction false} PrefixLength(ns: seq<nat>, i: nat)
    requires ns != [] && AllScalars(ns) && i <= |ns|
    ensures AllScalars(ns[..i]) && AllScalars(ns[1..]) && IsScalar(ns[0])
    ensures i > 0 ==> AllScalars(ns[1..][..i - 1]) && |Encoded(ns[..i])| == |Encoding(ns[0])| + |Encoded(ns[1..][..i - 1])|
    ensures i == 0 ==> Encoded(ns[..i]) == []
  {
    hide Encoding, IsScalar;
    if i > 0 { assert ns[..i][1..] == ns[1..][..i - 1]; }
  }

  lemma {:induction false} EncodedAppend(a: seq<nat>, b: seq<nat>)
    requires AllScalars(a) && AllScalars(b)
    ensures AllScalars(a + b) && Encoded(a + b) == Encoded(a) + Encoded(b)
    decreases |a|
  {
    hide Encoding, IsScalar;
    if a == [] {
      assert a + b == b;
    } else {
      EncodedAppend(a[1..], b);
      assert (a + b)[1..] == a[1..] + b;
    }
  }

  /** The slice between two scalar boundaries. */
  lemma {:induction false} SliceIs(ns: seq<nat>, i: nat, j: nat)
    requires AllScalars(ns) && i <= j <= |ns|
    ensures |Encoded(ns[..i])| <= |Encoded(ns[..j])| <= |Encoded(ns)|
    ensures Encoded(ns)[|Encoded(ns[..i])|..|Encoded(ns[..j])|] == Encoded(ns[i..j])
  {
    hide Encoded, IsScalar;
    EncodedAppend(ns[..i], ns[i..j]);
    EncodedAppend(ns[..j], ns[j..]);
    assert ns[..i] + ns[i..j] == ns[..j] && ns[..j] + ns[j..] == ns;
  }

  /** The keys of a text, in order: its stretches of `n` consecutive scalar values. */
  lemma {:induction false} NgramKeysAre(ns: seq<nat>, n: nat)
    requires AllScalars(ns) && n > 0
    ensures Valid(Encoded(ns))
    ensures |NgramKeys(Encoded(ns), n)| == if |ns| < n then 0 else |ns| - n + 1
    ensures var keys := NgramKeys(Encoded(ns), n); forall w :: 0 <= w < |keys| ==> keys[w] == Encoded(ns[w..w + n])
  {
    hide Encoded, CharStarts, IsScalar, ValidFrom;
    var t := Encoded(ns);
    assert t[0..] == t;
    StartsAre(t, 0, ns, 0);
    var cs := CharStarts(t, 0);
    var keys := NgramKeys(t, n);
    forall w | 0 <= w < |keys| ensures keys[w] == Encoded(ns[w..w + n]) {
      StartsAre(t, 0, ns, w);
      StartsAre(t, 0, ns, w + n);
      SliceIs(ns, w, w + n);
      assert keys[w] == t[cs[w]..cs[w + n]];
    }
  }
}
