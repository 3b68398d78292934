/** Varint streams by digit and position: what the dense index and posting lists hold as numbers. */
module VarintLayout {
  import opened Bytes
  import opened Digits
  import opened Varint
  import opened Delta
  import opened DenseIndex

  /** The base-128 digits of a value, least significant first, with a continuation bit on all but the last. */
  predicate IsVarint(s: seq<Byte>, v: nat) {
    && |s| >= 1
    && (forall i :: 0 <= i < |s| ==> s[i] == Digit(v, 128, i) + if i < |s| - 1 then 128 else 0)
    && v < Power(128, |s|)
    && (|s| > 1 ==> v >= Power(128, |s| - 1))
  }

  lemma {:induction false} WriteLayout(v: nat)
    ensures IsVarint(Write(v), v)
    decreases v
  {
    hide Digit, Power;
    var s := Write(v);
    HigherDigit(v, 128, 0);
    Powers(|s|);
    if v >= 128 {
      var rest := Write(v / 128);
      WriteLayout(v / 128);
      Powers(|rest|);
      hide Write;
      forall i | 0 <= i < |s| ensures s[i] == Digit(v, 128, i) + if i < |s| - 1 then 128 else 0 {
        if i > 0 { assert s[i] == rest[i - 1]; HigherDigit(v, 128, i - 1); }
      }
    }
  }

  lemma {:induction false} Powers(n: nat)
    requires n > 0
    ensures Power(128, 0) == 1 && Power(128, n) == 128 * Power(128, n - 1) && (n == 1 ==> Power(128, n) == 128)
  {
  }

  // ----- numbers -----

  /** The numbers one after another. */
  function Varints(ns: seq<nat>): seq<Byte> {
    if ns == [] then [] else Write(ns[0]) + Varints(ns[1..])
  }

  lemma {:induction false} VarintsAppend(a: seq<nat>, b: seq<nat>)
    ensures Varints(a + b) == Varints(a) + Varints(b)
    decreases |a|
  {
    hide Write;
    if a == [] {
      assert a + b == b;
    } else {
      assert (a + b)[1..] == a[1..] + b;
      VarintsAppend(a[1..], b);
    }
  }

  /** The value in front of position `i`. */
  function Predecessor(previous: U64, values: seq<U64>, i: nat): U64
    requires i <= |values|
  {
    if i == 0 then previous else values[i - 1]
  }

  /** Each value less the one before it, the first less `previous`. */
  predicate AreDifferences(ds: seq<nat>, values: seq<U64>, previous: U64 := 0) {
    |ds| == |values| && forall i :: 0 <= i < |ds| ==> Predecessor(previous, values, i) + ds[i] == values[i]
  }

  lemma {:induction false} TailNumbers(previous: U64, values: seq<U64>, ds: seq<nat>)
    requires AreDifferences(ds, values, previous)
    ensures Tail(previous, values) == Varints(ds)
    decreases |values|
  {
    hide Write;
    if values != [] {
      assert Predecessor(previous, values, 0) + ds[0] == values[0];
      forall i | 0 <= i < |ds[1..]| ensures Predecessor(values[0], values[1..], i) + ds[1..][i] == values[1..][i] {
        assert Predecessor(previous, values, i + 1) + ds[i + 1] == values[i + 1];
      }
      TailNumbers(values[0], values[1..], ds[1..]);
    }
  }

  /** A posting list is stored as its differences. */
  lemma {:induction false} ListLayout(values: seq<U64>, ds: seq<nat>)
    requires AreDifferences(ds, values)
    ensures Encoded(values) == Varints(ds)
  {
    hide Tail;
    TailNumbers(0, values, ds);
  }

  // ----- the dense index -----

  /** An entry as numbers: chunk id, number of offsets, then the offsets' differences. */
  predicate EntryNumbers(ns: seq<nat>, e: DenseEntry) {
    |ns| == 2 + |e.offsets| && ns[0] == e.chunkId && ns[1] == |e.offsets| && AreDifferences(ns[2..], e.offsets)
  }

  /** The block as numbers: the number of entries, then the entries. */
  ghost predicate IndexNumbers(rows: seq<seq<nat>>, es: seq<DenseEntry>) {
    |rows| == |es| && forall i :: 0 <= i < |es| ==> EntryNumbers(rows[i], es[i])
  }

  function Concat(rows: seq<seq<nat>>): seq<nat> {
    if rows == [] then [] else Concat(rows[..|rows| - 1]) + rows[|rows| - 1]
  }

  lemma {:induction false} EntryLayout(e: DenseEntry, ns: seq<nat>)
    requires |e.offsets| <= U64_MAX && EntryNumbers(ns, e)
    ensures EntryBytes(e) == Varints(ns)
  {
    hide Write, Tail;
    assert ns == [ns[0]] + ([ns[1]] + ns[2..]);
    assert ns[1..] == [ns[1]] + ns[2..] && ns[1..][1..] == ns[2..];
    ListLayout(e.offsets, ns[2..]);
    assert EntryBytes(e) == Write(ns[0]) + (Write(ns[1]) + Varints(ns[2..]));
  }

  lemma {:induction false} EntriesLayout(es: seq<DenseEntry>, rows: seq<seq<nat>>)
    requires AllEncodable(es) && IndexNumbers(rows, es)
    ensures EntriesBytes(es) == Varints(Concat(rows))
    decreases |es|
  {
    hide Varints, EntryNumbers, EntryBytes, Encodable;
    if es == [] {
      assert Varints([]) == [] by { NoNumbers(); }
    } else {
      var n := |es| - 1;
      EntriesLayout(es[..n], rows[..n]);
      assert Encodable(es[n]);
      EntryLayout(es[n], rows[n]) by { EncodableCount(es[n]); }
      VarintsAppend(Concat(rows[..n]), rows[n]);
    }
  }

  lemma {:induction false} NoNumbers()
    ensures Varints([]) == []
  {
  }

  lemma {:induction false} EncodableCount(e: DenseEntry)
    requires Encodable(e)
    ensures |e.offsets| <= U64_MAX
  {
  }

  /** The dense index block is the varints of its numbers. */
  lemma {:induction false} IndexLayout(es: seq<DenseEntry>, rows: seq<seq<nat>>)
    requires AllEncodable(es) && IndexNumbers(rows, es)
    ensures IndexBytes(es) == Varints([|es|] + Concat(rows))
  {
    hide EntriesBytes, IndexNumbers, Concat, Write, AllEncodable;
    EntriesLayout(es, rows);
    assert ([|es|] + Concat(rows))[1..] == Concat(rows);
  }
}
