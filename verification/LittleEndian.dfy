/** Fixed-width little-endian words. */
module LittleEndian {
  import opened Bytes

  /** The `w` low bytes of `n`, least significant first. */
  function Le(n: nat, w: nat): (bytes: seq<Byte>)
    ensures |bytes| == w
    decreases w
  {
    if w == 0 then [] else [n % 256] + Le(n / 256, w - 1)
  }

  function Unle(bytes: seq<Byte>): nat {
    if bytes == [] then 0 else bytes[0] + 256 * Unle(bytes[1..])
  }

  lemma {:induction false} UnleOfLe(n: nat, w: nat)
    requires n < Pow256(w)
    ensures Unle(Le(n, w)) == n
    decreases w
  {
    if w > 0 {
      UnleOfLe(n / 256, w - 1);
      assert Le(n, w)[1..] == Le(n / 256, w - 1);
    }
  }

  lemma {:induction false} LeOfUnle(bytes: seq<Byte>)
    ensures Unle(bytes) < Pow256(|bytes|) && Le(Unle(bytes), |bytes|) == bytes
    decreases |bytes|
  {
    if bytes != [] {
      LeOfUnle(bytes[1..]);
      var rest := Unle(bytes[1..]);
      LowByte(bytes[0], rest, Pow256(|bytes| - 1));
      assert bytes == [bytes[0]] + bytes[1..];
    }
  }

  lemma {:induction false} LowByte(b: Byte, rest: nat, bound: nat)
    requires rest < bound
    ensures (b + 256 * rest) % 256 == b && (b + 256 * rest) / 256 == rest && b + 256 * rest < 256 * bound
  {
  }

  // ----- rows of words -----

  function Words(ns: seq<nat>, w: nat): (bytes: seq<Byte>)
    ensures |bytes| == |ns| * w
  {
    if ns == [] then [] else Mul(|ns|, w); Le(ns[0], w) + Words(ns[1..], w)
  }

  lemma {:induction false} Mul(n: nat, w: nat)
    requires n > 0
    ensures n * w == w + (n - 1) * w
  {
  }

  function Unwords(bytes: seq<Byte>, w: nat, count: nat): (ns: seq<nat>)
    requires |bytes| == count * w
    ensures |ns| == count
    decreases count
  {
    if count == 0 then [] else Mul(count, w); [Unle(bytes[..w])] + Unwords(bytes[w..], w, count - 1)
  }

  lemma {:induction false} UnwordsOfWords(ns: seq<nat>, w: nat)
    requires forall i :: 0 <= i < |ns| ==> ns[i] < Pow256(w)
    ensures Unwords(Words(ns, w), w, |ns|) == ns
    decreases |ns|
  {
    hide *;
    if ns != [] {
      WordsStep(ns, w);
      UnwordsStep(Words(ns, w), w, |ns|);
      UnleOfLe(ns[0], w);
      UnwordsOfWords(ns[1..], w);
      assert ns == [ns[0]] + ns[1..];
    }
  }

  lemma {:induction false} WordsStep(ns: seq<nat>, w: nat)
    requires ns != []
    ensures w <= |Words(ns, w)| && Words(ns, w)[..w] == Le(ns[0], w) && Words(ns, w)[w..] == Words(ns[1..], w)
    ensures |Words(ns, w)| == |ns| * w && |Words(ns[1..], w)| == (|ns| - 1) * w
  {
    hide Le;
    Mul(|ns|, w);
  }

  lemma {:induction false} UnwordsStep(bytes: seq<Byte>, w: nat, count: nat)
    requires |bytes| == count * w && count > 0
    ensures w <= |bytes| && |bytes[w..]| == (count - 1) * w
    ensures Unwords(bytes, w, count) == [Unle(bytes[..w])] + Unwords(bytes[w..], w, count - 1)
  {
    hide Unle;
    Mul(count, w);
  }

  lemma {:induction false} WordsOfUnwords(bytes: seq<Byte>, w: nat, count: nat)
    requires |bytes| == count * w
    ensures Words(Unwords(bytes, w, count), w) == bytes
    ensures forall i :: 0 <= i < count ==> Unwords(bytes, w, count)[i] < Pow256(w)
    decreases count
  {
    hide *;
    if count > 0 {
      UnwordsStep(bytes, w, count);
      LeOfUnle(bytes[..w]);
      WordsOfUnwords(bytes[w..], w, count - 1);
      var ns := Unwords(bytes, w, count);
      assert ns[1..] == Unwords(bytes[w..], w, count - 1);
      WordsStep(ns, w);
      assert bytes == bytes[..w] + bytes[w..];
      assert Words(ns, w) == Words(ns, w)[..w] + Words(ns, w)[w..];
    } else {
      NoWords(bytes, w);
    }
  }

  lemma {:induction false} NoWords(bytes: seq<Byte>, w: nat)
    requires |bytes| == 0
    ensures 0 * w == 0 && Words(Unwords(bytes, w, 0), w) == bytes
  {
  }
}
