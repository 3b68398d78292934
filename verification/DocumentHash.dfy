/**
 * Single-pass hashing of document ranges. A hasher's state is the byte string it
 * has been fed; its digest is an arbitrary function of that string.
 */
module DocumentHash {
  import opened Bytes
  import opened ChunkTable
  import opened ChunkCache
  import opened LineReads

  /** A document's identifier with its 16-byte hash, byte range, line range, chunk range and checksum. */
  datatype Document<Digest> = Document(
    docId: seq<Byte>, docIdHash: seq<Byte>,
    logicalOffset: U64, byteLength: U64, firstLine: U64, lineCount: U64, chunkStart: U64, chunkEnd: U64, checksum: Digest)

  datatype Pending = Pending(index: nat, start: U64, end: U64)

  datatype Active = Active(index: nat, start: U64, end: U64, fed: seq<Byte>)

  // ----- pending documents, by start -----

  predicate Before(a: Pending, b: Pending) { a.start < b.start || (a.start == b.start && a.index <= b.index) }

  function Place(p: Pending, sorted: seq<Pending>): (r: seq<Pending>)
    ensures multiset(r) == multiset(sorted) + multiset{p}
  {
    if sorted == [] || Before(p, sorted[0]) then [p] + sorted
    else
      assert sorted == [sorted[0]] + sorted[1..];
      [sorted[0]] + Place(p, sorted[1..])
  }

  predicate ByStart(ps: seq<Pending>) { forall i, j :: 0 <= i < j < |ps| ==> ps[i].start <= ps[j].start }

  lemma {:induction false} PlaceSorted(p: Pending, sorted: seq<Pending>)
    requires ByStart(sorted)
    ensures ByStart(Place(p, sorted))
    decreases |sorted|
  {
    if sorted != [] && !Before(p, sorted[0]) {
      PlaceSorted(p, sorted[1..]);
      var rest := Place(p, sorted[1..]);
      forall x | x in rest ensures sorted[0].start <= x.start { assert x in multiset(rest); assert x == p || x in sorted[1..]; }
    }
  }

  function SaturatingEnd(start: U64, length: U64): U64 { if start + length > U64_MAX then U64_MAX else start + length }

  /** The nonempty documents from position `i` on, sorted by start and index. */
  function PendingOf<D>(docs: seq<Document<D>>, i: nat): (ps: seq<Pending>)
    requires i <= |docs|
    ensures forall p :: p in ps ==> i <= p.index < |docs| && IsPending(docs, p)
    ensures forall k :: i <= k < |docs| && docs[k].byteLength > 0 ==> PendingAt(docs, k) in ps
    decreases |docs| - i
  {
    if i == |docs| then []
    else
      var rest := PendingOf(docs, i + 1);
      if docs[i].byteLength == 0 then rest
      else
        assert forall x :: x in Place(PendingAt(docs, i), rest) <==> x in multiset(Place(PendingAt(docs, i), rest));
        Place(PendingAt(docs, i), rest)
  }

  function PendingAt<D>(docs: seq<Document<D>>, k: nat): Pending
    requires k < |docs|
  {
    Pending(k, docs[k].logicalOffset, SaturatingEnd(docs[k].logicalOffset, docs[k].byteLength))
  }

  predicate IsPending<D>(docs: seq<Document<D>>, p: Pending) {
    p.index < |docs| && docs[p.index].byteLength > 0 && p == PendingAt(docs, p.index)
  }

  predicate DistinctIndexes(ps: seq<Pending>) { forall i, j :: 0 <= i < j < |ps| ==> ps[i].index != ps[j].index }

  lemma {:induction false} PendingSorted<D>(docs: seq<Document<D>>, i: nat)
    requires i <= |docs|
    ensures ByStart(PendingOf(docs, i)) && DistinctIndexes(PendingOf(docs, i))
    decreases |docs| - i
  {
    hide *;
    PendingStep(docs, i);
    if i < |docs| {
      PendingSorted(docs, i + 1);
      if docs[i].byteLength > 0 {
        PlaceSorted(PendingAt(docs, i), PendingOf(docs, i + 1));
        PlaceDistinct(PendingAt(docs, i), PendingOf(docs, i + 1));
      }
    }
  }

  lemma {:induction false} PendingStep<D>(docs: seq<Document<D>>, i: nat)
    requires i <= |docs|
    ensures i == |docs| ==> PendingOf(docs, i) == [] && ByStart([]) && DistinctIndexes([])
    ensures i < |docs| && docs[i].byteLength == 0 ==> PendingOf(docs, i) == PendingOf(docs, i + 1)
    ensures i < |docs| && docs[i].byteLength > 0 ==>
              && PendingOf(docs, i) == Place(PendingAt(docs, i), PendingOf(docs, i + 1))
              && PendingAt(docs, i).index == i
  {
  }

  lemma {:induction false} PlaceDistinct(p: Pending, sorted: seq<Pending>)
    requires DistinctIndexes(sorted) && forall x :: x in sorted ==> x.index != p.index
    ensures DistinctIndexes(Place(p, sorted))
    decreases |sorted|
  {
    if sorted != [] && !Before(p, sorted[0]) {
      PlaceDistinct(p, sorted[1..]);
      var rest := Place(p, sorted[1..]);
      forall x | x in rest ensures sorted[0].index != x.index {
        assert x in multiset(rest);
        if x != p { assert x in sorted[1..]; var k :| 0 <= k < |sorted[1..]| && sorted[1..][k] == x; assert sorted[k + 1] == x; }
      }
    }
  }

  // ----- what has been fed -----

  /** The part of a document's range below `n`. */
  function Fed(p: Pending, t: seq<Byte>, n: nat): seq<Byte>
    requires n <= |t|
  {
    if p.start >= n then [] else t[p.start..Min(n, Max(p.end, p.start))]
  }

  /** The documents still open after `n` bytes. */
  function ActiveOf(ps: seq<Pending>, t: seq<Byte>, n: nat): seq<Active>
    requires n <= |t|
  {
    if ps == [] then []
    else
      var p := ps[|ps| - 1];
      ActiveOf(ps[..|ps| - 1], t, n) + if p.end > n then [Active(p.index, p.start, p.end, Fed(p, t, n))] else []
  }

  /** Recorded results: exactly the finished documents, each with its own bytes. */
  ghost predicate ResultsExact(results: map<nat, seq<Byte>>, ps: seq<Pending>, t: seq<Byte>, n: nat)
    requires n <= |t|
  {
    && (forall p :: p in ps && p.end <= n ==> p.index in results && results[p.index] == Fed(p, t, n))
    && (forall i :: i in results ==> exists p :: p in ps && p.index == i && p.end <= n)
  }

  lemma {:induction false} ActiveExact(ps: seq<Pending>, t: seq<Byte>, n: nat, a: Active)
    requires n <= |t|
    ensures a in ActiveOf(ps, t, n) <==> exists p :: p in ps && p.end > n && a == Active(p.index, p.start, p.end, Fed(p, t, n))
  {
    hide Fed;
    if ps != [] {
      ActiveExact(ps[..|ps| - 1], t, n, a);
      assert ps == ps[..|ps| - 1] + [ps[|ps| - 1]];
    }
  }

  /** One open document after the chunk `[n, m)`. */
  function Advance(a: Active, t: seq<Byte>, n: nat, m: nat): Active
    requires n <= m <= |t|
  {
    var lower, upper := Max(n, a.start), Min(m, a.end);
    if lower < upper then a.(fed := a.fed + t[lower..upper]) else a
  }

  lemma {:induction false} AdvanceFed(p: Pending, t: seq<Byte>, n: nat, m: nat)
    requires n <= m <= |t| && p.end > n
    ensures Advance(Active(p.index, p.start, p.end, Fed(p, t, n)), t, n, m) == Active(p.index, p.start, p.end, Fed(p, t, m))
  {
    var lower, upper := Max(n, p.start), Min(m, p.end);
    if lower < upper {
      if p.start < n { assert t[p.start..n] + t[n..upper] == t[p.start..upper]; }
    }
  }

  /** The open documents of a list after the chunk. */
  function Still(list: seq<Active>, t: seq<Byte>, n: nat, m: nat): seq<Active>
    requires n <= m <= |t|
  {
    if list == [] then []
    else
      var a := list[|list| - 1];
      Still(list[..|list| - 1], t, n, m) + if a.end <= m then [] else [Advance(a, t, n, m)]
  }

  lemma {:induction false} StillActive(ps: seq<Pending>, t: seq<Byte>, n: nat, m: nat)
    requires n <= m <= |t|
    ensures Still(ActiveOf(ps, t, n), t, n, m) == ActiveOf(ps, t, m)
    decreases |ps|
  {
    hide *;
    if ps != [] {
      var p, front := ps[|ps| - 1], ps[..|ps| - 1];
      StillActive(front, t, n, m);
      ActiveStep(front, p, t, n);
      ActiveStep(front, p, t, m);
      assert front + [p] == ps;
      if p.end > n {
        AdvanceFed(p, t, n, m);
        StillSnoc(ActiveOf(front, t, n), Active(p.index, p.start, p.end, Fed(p, t, n)), t, n, m);
      }
    } else {
      NoneActive(t, n, m);
    }
  }

  lemma {:induction false} ActiveStep(front: seq<Pending>, p: Pending, t: seq<Byte>, n: nat)
    requires n <= |t|
    ensures p.end > n ==> ActiveOf(front + [p], t, n) == ActiveOf(front, t, n) + [Active(p.index, p.start, p.end, Fed(p, t, n))]
    ensures p.end <= n ==> ActiveOf(front + [p], t, n) == ActiveOf(front, t, n)
  {
    hide Fed;
    assert (front + [p])[..|front|] == front;
  }

  lemma {:induction false} StillSnoc(front: seq<Active>, a: Active, t: seq<Byte>, n: nat, m: nat)
    requires n <= m <= |t|
    ensures a.end > m ==> Still(front + [a], t, n, m) == Still(front, t, n, m) + [Advance(a, t, n, m)]
    ensures a.end <= m ==> Still(front + [a], t, n, m) == Still(front, t, n, m)
  {
    hide Advance;
    assert (front + [a])[..|front|] == front;
  }

  lemma {:induction false} NoneActive(t: seq<Byte>, n: nat, m: nat)
    requires n <= m <= |t|
    ensures ActiveOf([], t, n) == [] && ActiveOf([], t, m) == [] && Still([], t, n, m) == []
  {
  }

  /** Activating the next pending document, which starts at or after `n`. */
  lemma {:induction false} ActivateNext(ps: seq<Pending>, t: seq<Byte>, n: nat, k: nat)
    requires n <= |t| && k < |ps| && ps[k].start >= n && ps[k].start < ps[k].end
    ensures ActiveOf(ps[..k + 1], t, n) == ActiveOf(ps[..k], t, n) + [Active(ps[k].index, ps[k].start, ps[k].end, [])]
  {
    assert ps[..k] + [ps[k]] == ps[..k + 1];
    ActiveStep(ps[..k], ps[k], t, n);
  }

  // ----- the hasher -----

  class DocumentHasher {
    var pending: seq<Pending>
    var next: nat
    var active: seq<Active>
    var results: map<nat, seq<Byte>>

    /** The first `n` bytes have been fed: documents that start below `n` are open or recorded, the rest wait. */
    ghost predicate FedUpTo(t: seq<Byte>, n: nat)
      reads this
    {
      && n <= |t| && next <= |pending|
      && (forall k :: 0 <= k < next ==> pending[k].start < n)
      && (forall k :: next <= k < |pending| ==> pending[k].start >= n)
      && active == ActiveOf(pending[..next], t, n)
      && ResultsExact(results, pending[..next], t, n)
    }

    constructor <D>(docs: seq<Document<D>>)
      ensures pending == PendingOf(docs, 0)
      ensures forall t :: FedUpTo(t, 0)
    {
      pending, next, active, results := PendingOf(docs, 0), 0, [], map[];
    }

    /** `feed`: the chunk `[off, end)` of the text. */
    method Feed(off: U64, decoded: seq<Byte>, ghost t: seq<Byte>) returns (ok: bool)
      requires |t| <= U64_MAX && off + |decoded| <= |t| && decoded == t[off..off + |decoded|]
      requires FedUpTo(t, off) && ByStart(pending) && DistinctIndexes(pending)
      requires forall p :: p in pending && p.start < U64_MAX ==> p.start < p.end
      modifies this
      ensures ok && pending == old(pending) && FedUpTo(t, off + |decoded|)
    {
      hide ActiveOf, ResultsExact, ByStart, DistinctIndexes;
      var end := off + |decoded|;
      Activate(off, end, t);
      ok := Drain(off, end, decoded, t);
    }

    /** Opens every pending document that starts before the end of the chunk. */
    method Activate(off: U64, end: U64, ghost t: seq<Byte>)
      requires off <= end <= |t| <= U64_MAX && FedUpTo(t, off) && ByStart(pending)
      requires forall p :: p in pending && p.start < U64_MAX ==> p.start < p.end
      modifies this`active, this`next
      ensures next <= |pending| && active == ActiveOf(pending[..next], t, off)
      ensures forall k :: 0 <= k < next ==> pending[k].start < end
      ensures forall k :: next <= k < |pending| ==> pending[k].start >= end
      ensures ResultsExact(results, pending[..next], t, off)
    {
      hide ActiveOf, ResultsExact;
      ghost var first := next;
      while next < |pending| && pending[next].start < end
        invariant first <= next <= |pending| && active == ActiveOf(pending[..next], t, off)
        invariant forall k :: 0 <= k < next ==> pending[k].start < end
        invariant ResultsExact(results, pending[..next], t, off)
        decreases |pending| - next
      {
        var p := pending[next];
        assert p in pending;
        ActivateNext(pending, t, off, next);
        MorePending(results, pending, t, off, next);
        active := active + [Active(p.index, p.start, p.end, [])];
        next := next + 1;
      }
    }

    /** Feeds the chunk to every open document; records those that end in it. */
    method Drain(off: U64, end: U64, decoded: seq<Byte>, ghost t: seq<Byte>) returns (ok: bool)
      requires off <= end <= |t| <= U64_MAX && decoded == t[off..end] && next <= |pending| && DistinctIndexes(pending)
      requires active == ActiveOf(pending[..next], t, off) && ResultsExact(results, pending[..next], t, off)
      modifies this`active, this`results
      ensures ok && active == ActiveOf(pending[..next], t, end) && ResultsExact(results, pending[..next], t, end)
    {
      hide ActiveOf, ResultsExact, DistinctIndexes, Advance;
      ghost var ps := pending[..next];
      var draining := active;
      var still: seq<Active> := [];
      ghost var before := results;
      NothingDrained(draining, t, off, end);
      for j := 0 to |draining|
        invariant still == Still(draining[..j], t, off, end)
        invariant Drained(before, results, draining[..j], t, off, end)
      {
        var a := draining[j];
        AdvanceIs(a, t, off, end);
        var lower, upper := Max(off, a.start), Min(end, a.end);
        if lower < upper {
          if !(lower - off <= upper - off <= |decoded|) { return false; }
          SliceOfSlice(t, off, end, lower, upper);
          a := a.(fed := a.fed + decoded[lower - off..upper - off]);
        }
        StillSnoc(draining[..j], draining[j], t, off, end);
        assert draining[..j + 1] == draining[..j] + [draining[j]];
        OneFinished(before, results, draining[..j], draining[j], t, off, end);
        if a.end <= end { results := results[a.index := a.fed]; } else { still := still + [a]; }
      }
      assert draining[..|draining|] == draining;
      StillActive(ps, t, off, end);
      AllFinished(before, results, ps, t, off, end) by { PrefixDistinct(pending, next); }
      active := still;
      return true;
    }
  }

  /** Results after draining a list: the finished ones recorded with their bytes, the others as before. */
  ghost predicate Drained(before: map<nat, seq<Byte>>, results: map<nat, seq<Byte>>, list: seq<Active>, t: seq<Byte>, n: nat, m: nat)
    requires n <= m <= |t|
  {
    forall i :: (i in results <==> i in before || Ends(list, i, m))
                && (i in results && Ends(list, i, m) ==> exists a :: a in list && a.index == i && a.end <= m && results[i] == Advance(a, t, n, m).fed)
                && (i in results && !Ends(list, i, m) ==> results[i] == before[i])
  }

  ghost predicate Ends(list: seq<Active>, i: nat, m: nat) { exists a :: a in list && a.index == i && a.end <= m }

  lemma {:induction false} AdvanceIs(a: Active, t: seq<Byte>, n: nat, m: nat)
    requires n <= m <= |t|
    ensures Advance(a, t, n, m) == if Max(n, a.start) < Min(m, a.end) then a.(fed := a.fed + t[Max(n, a.start)..Min(m, a.end)]) else a
  {
  }

  lemma {:induction false} NothingDrained(list: seq<Active>, t: seq<Byte>, n: nat, m: nat)
    requires n <= m <= |t|
    ensures list[..0] == [] && Still(list[..0], t, n, m) == []
    ensures forall before :: Drained(before, before, list[..0], t, n, m)
  {
  }

  lemma {:induction false} OneFinished(before: map<nat, seq<Byte>>, results: map<nat, seq<Byte>>, list: seq<Active>, a: Active, t: seq<Byte>, n: nat, m: nat)
    requires n <= m <= |t| && Drained(before, results, list, t, n, m)
    ensures a.end <= m ==> Drained(before, results[a.index := Advance(a, t, n, m).fed], list + [a], t, n, m)
    ensures a.end > m ==> Drained(before, results, list + [a], t, n, m)
  {
    hide Advance;
    var all := list + [a];
    assert forall x :: x in all <==> x in list || x == a;
    forall i ensures Ends(all, i, m) <==> Ends(list, i, m) || (a.end <= m && a.index == i) {
      if a.end <= m && a.index == i { assert a in all; }
    }
  }

  lemma {:induction false} PrefixDistinct(ps: seq<Pending>, k: nat)
    requires DistinctIndexes(ps) && k <= |ps|
    ensures DistinctIndexes(ps[..k])
  {
  }

  lemma {:induction false} MorePending(results: map<nat, seq<Byte>>, ps: seq<Pending>, t: seq<Byte>, n: nat, k: nat)
    requires n <= |t| && k < |ps| && ResultsExact(results, ps[..k], t, n) && ps[k].end > n
    ensures ResultsExact(results, ps[..k + 1], t, n)
  {
    hide Fed;
    assert ps[..k + 1] == ps[..k] + [ps[k]];
  }

  /** Every finished document of the list ends up recorded with exactly its own bytes. */
  lemma {:induction false} AllFinished(before: map<nat, seq<Byte>>, results: map<nat, seq<Byte>>, ps: seq<Pending>, t: seq<Byte>, n: nat, m: nat)
    requires n <= m <= |t| && DistinctIndexes(ps) && ResultsExact(before, ps, t, n)
    requires Drained(before, results, ActiveOf(ps, t, n), t, n, m)
    ensures ResultsExact(results, ps, t, m)
  {
    hide ActiveOf, Fed, Advance, DistinctIndexes;
    var list := ActiveOf(ps, t, n);
    forall p | p in ps && p.end <= m ensures p.index in results && results[p.index] == Fed(p, t, m) {
      if p.end > n {
        ActiveEnds(ps, t, n, m, p);
        var a :| a in list && a.index == p.index && a.end <= m && results[p.index] == Advance(a, t, n, m).fed;
        ActiveIs(ps, t, n, a, p);
        AdvanceFed(p, t, n, m);
      } else {
        if Ends(list, p.index, m) {
          var a :| a in list && a.index == p.index && a.end <= m;
          ActiveIs(ps, t, n, a, p);
        }
        FedDone(p, t, n, m);
      }
    }
    forall i | i in results ensures exists p :: p in ps && p.index == i && p.end <= m {
      if Ends(list, i, m) {
        var a :| a in list && a.index == i && a.end <= m;
        ActiveExact(ps, t, n, a);
      } else {
        var p :| p in ps && p.index == i && p.end <= n;
        assert p in ps && p.index == i && p.end <= m;
      }
    }
  }

  lemma {:induction false} ActiveEnds(ps: seq<Pending>, t: seq<Byte>, n: nat, m: nat, p: Pending)
    requires n <= m <= |t| && p in ps && n < p.end <= m
    ensures Ends(ActiveOf(ps, t, n), p.index, m)
  {
    var a := Active(p.index, p.start, p.end, Fed(p, t, n));
    ActiveExact(ps, t, n, a);
  }

  /** The open document with an index is the pending one with that index. */
  lemma {:induction false} ActiveIs(ps: seq<Pending>, t: seq<Byte>, n: nat, a: Active, p: Pending)
    requires n <= |t| && DistinctIndexes(ps) && a in ActiveOf(ps, t, n) && p in ps && a.index == p.index
    ensures p.end > n && a == Active(p.index, p.start, p.end, Fed(p, t, n))
  {
    hide ActiveOf, Fed;
    ActiveExact(ps, t, n, a);
    var x :| x in ps && x.end > n && a == Active(x.index, x.start, x.end, Fed(x, t, n));
    var i :| 0 <= i < |ps| && ps[i] == x;
    var j :| 0 <= j < |ps| && ps[j] == p;
  }

  lemma {:induction false} FedDone(p: Pending, t: seq<Byte>, n: nat, m: nat)
    requires n <= m <= |t| && p.end <= n
    ensures Fed(p, t, n) == Fed(p, t, m) || p.start >= n
    ensures p.start >= n ==> Fed(p, t, n) == [] && Fed(p, t, m) == []
  {
  }

  // ----- a whole document index -----

  predicate InRange<D>(t: seq<Byte>, d: Document<D>) { d.logicalOffset + d.byteLength <= |t| }

  /** For each in-range nonempty document its own bytes, and nothing for empty or unknown ones. */
  ghost predicate Hashed<D(!new)>(docs: seq<Document<D>>, t: seq<Byte>, results: map<nat, seq<Byte>>) {
    && (forall i :: 0 <= i < |docs| && docs[i].byteLength > 0 && InRange(t, docs[i]) ==>
          i in results && results[i] == t[docs[i].logicalOffset..docs[i].logicalOffset + docs[i].byteLength])
    && (forall i :: i in results ==> i < |docs| && docs[i].byteLength > 0)
  }

  /**
   * Feeding every chunk once records, for each in-range nonempty document, exactly the bytes of
   * its range, in order, under its own index: whatever the order, the overlaps and the chunking.
   */
  method HashDocuments<D(!new)>(c: Container, docs: seq<Document<D>>) returns (results: map<nat, seq<Byte>>)
    requires c.Valid()
    ensures Hashed(docs, c.text, results)
  {
    hide Tiles, ActiveOf, ResultsExact, ByStart, DistinctIndexes, PendingOf, Hashed;
    TextFits(c);
    var hasher := new DocumentHasher(docs);
    for i := 0 to |c.entries|
      invariant fresh(hasher) && hasher.pending == PendingOf(docs, 0)
      invariant EndBefore(c.entries, i) <= |c.text| && hasher.FedUpTo(c.text, EndBefore(c.entries, i))
    {
      NextChunk(c, i);
      FeedChunk(docs, hasher, c, i);
    }
    LastChunk(c);
    results := hasher.results;
    RecordedExactly(docs, hasher, c.text);
  }

  /** Feeding never fails on the chunks of a table. */
  method FeedChunk<D>(docs: seq<Document<D>>, hasher: DocumentHasher, c: Container, i: nat)
    requires c.Valid() && i < |c.entries| && hasher.pending == PendingOf(docs, 0)
    requires EndBefore(c.entries, i) <= |c.text| && hasher.FedUpTo(c.text, EndBefore(c.entries, i))
    modifies hasher
    ensures hasher.pending == PendingOf(docs, 0)
    ensures EndBefore(c.entries, i + 1) <= |c.text| && hasher.FedUpTo(c.text, EndBefore(c.entries, i + 1))
  {
    hide Tiles, ActiveOf, ResultsExact, ByStart, DistinctIndexes, PendingOf;
    TextFits(c);
    NextChunk(c, i);
    PendingSorted(docs, 0);
    PendingNonempty(docs, hasher.pending);
    var e := c.entries[i];
    var fed := hasher.Feed(e.logicalOffset, ChunkText(c, e), c.text);
  }

  lemma {:induction false} PendingNonempty<D>(docs: seq<Document<D>>, ps: seq<Pending>)
    requires ps == PendingOf(docs, 0)
    ensures forall p :: p in ps && p.start < U64_MAX ==> p.start < p.end
  {
    forall p | p in ps && p.start < U64_MAX ensures p.start < p.end { assert IsPending(docs, p); }
  }

  lemma {:induction false} RecordedExactly<D(!new)>(docs: seq<Document<D>>, hasher: DocumentHasher, t: seq<Byte>)
    requires hasher.pending == PendingOf(docs, 0) && |t| <= U64_MAX && hasher.FedUpTo(t, |t|)
    ensures Hashed(docs, t, hasher.results)
  {
    hide ActiveOf, PendingOf;
    forall i | 0 <= i < |docs| && docs[i].byteLength > 0 && InRange(t, docs[i])
      ensures i in hasher.results && hasher.results[i] == t[docs[i].logicalOffset..docs[i].logicalOffset + docs[i].byteLength]
    {
      Recorded(docs, hasher.pending, hasher.next, hasher.results, t, i);
    }
    var ps := hasher.pending[..hasher.next];
    hide InRange;
    forall i | i in hasher.results ensures i < |docs| && docs[i].byteLength > 0 {
      var p :| p in ps && p.index == i && p.end <= |t|;
      assert p in hasher.pending && IsPending(docs, p);
    }
  }

  lemma {:induction false} Recorded<D>(docs: seq<Document<D>>, pending: seq<Pending>, next: nat, results: map<nat, seq<Byte>>, t: seq<Byte>, i: nat)
    requires pending == PendingOf(docs, 0) && next <= |pending| && |t| <= U64_MAX
    requires (forall k :: next <= k < |pending| ==> pending[k].start >= |t|) && ResultsExact(results, pending[..next], t, |t|)
    requires i < |docs| && docs[i].byteLength > 0 && InRange(t, docs[i])
    ensures i in results && results[i] == t[docs[i].logicalOffset..docs[i].logicalOffset + docs[i].byteLength]
  {
    hide PendingOf;
    var p := PendingAt(docs, i);
    assert p in pending;
    var k :| 0 <= k < |pending| && pending[k] == p;
    assert pending[..next][k] == p;
  }

  /** `document_chunk_range`: the chunks a document's bytes lie in. */
  method DocumentChunkRange(c: Container, offset: U64, length: U64) returns (r: Result<(U64, U64)>)
    requires c.Valid() && offset + length <= |c.text|
    ensures length == 0 ==> r == Ok((0, 0))
    ensures length > 0 ==> r.Ok? && r.value.0 == FirstChunk(c, offset) && r.value.1 == PastChunk(c, offset + length)
  {
    if length == 0 { return Ok((0, 0)); }
    RangeChunks(c, offset, offset + length);
    r := ChunkSpanForRange(c.entries, offset, offset + length, |c.text|);
  }

  /** The document record agrees with the text; the identifier hash is an arbitrary function. */
  ghost predicate DocumentOk<D(!new)>(c: Container, d: Document<D>, lineCount: nat, hash: seq<Byte> -> D, idHash: seq<Byte> -> seq<Byte>) {
    && InRange(c.text, d)
    && d.firstLine + d.lineCount <= lineCount
    && d.docIdHash == idHash(d.docId)
    && d.checksum == hash(c.text[d.logicalOffset..d.logicalOffset + d.byteLength])
    && (if d.byteLength == 0 then d.chunkStart == 0 && d.chunkEnd == 0
        else d.chunkStart == FirstChunk(c, d.logicalOffset) && d.chunkEnd == PastChunk(c, d.logicalOffset + d.byteLength))
  }

  ghost predicate DocumentsOk<D(!new)>(c: Container, docs: seq<Document<D>>, lineCount: nat, hash: seq<Byte> -> D, idHash: seq<Byte> -> seq<Byte>) {
    forall i :: 0 <= i < |docs| ==> DocumentOk(c, docs[i], lineCount, hash, idHash)
  }

  /** `verify_document_index_ranges`, given the hashes of the single pass: passes exactly when every record agrees with the text. */
  method VerifyDocuments<D(==, !new)>(c: Container, docs: seq<Document<D>>, lineCount: U64, hashed: map<nat, seq<Byte>>, hash: seq<Byte> -> D, idHash: seq<Byte> -> seq<Byte>)
    returns (ok: bool)
    requires c.Valid() && Hashed(docs, c.text, hashed)
    ensures ok <==> DocumentsOk(c, docs, lineCount, hash, idHash)
  {
    hide Tiles, FirstChunk, PastChunk;
    TextFits(c);
    for i := 0 to |docs|
      invariant forall k :: 0 <= k < i ==> DocumentOk(c, docs[k], lineCount, hash, idHash)
    {
      var d := docs[i];
      if d.logicalOffset + d.byteLength > |c.text| { return false; }
      if d.firstLine + d.lineCount > lineCount { return false; }
      assert InRange(c.text, d);
      if d.docIdHash != idHash(d.docId) { return false; }
      if d.byteLength > 0 && i !in hashed { return false; }
      var bytes := if d.byteLength == 0 then [] else hashed[i];
      assert bytes == c.text[d.logicalOffset..d.logicalOffset + d.byteLength];
      if hash(bytes) != d.checksum { return false; }
      var range := DocumentChunkRange(c, d.logicalOffset, d.byteLength);
      if range != Ok((d.chunkStart, d.chunkEnd)) { return false; }
    }
    return true;
  }
}
