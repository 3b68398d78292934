/** Acceptance of a chunk table in terms of running sums. */
module ChunkSums {
  import opened Bytes
  import opened ChunkTable

  /** Bytes in the first `n` chunks. */
  function ByteSum(entries: seq<ChunkEntry>, n: nat): nat
    requires n <= |entries|
  {
    if n == 0 then 0 else ByteSum(entries, n - 1) + entries[n - 1].uncompressedSize
  }

  /** Lines that start in the first `n` chunks. */
  function LineSum(entries: seq<ChunkEntry>, n: nat): nat
    requires n <= |entries|
  {
    if n == 0 then 0 else LineSum(entries, n - 1) + entries[n - 1].lineCount
  }

  /** An entry's own numbers are possible, and its position is where the entries before it end. */
  predicate InOrder(entries: seq<ChunkEntry>, i: nat)
    requires i < |entries|
  {
    var e := entries[i];
    && e.chunkId == i && e.logicalOffset == ByteSum(entries, i) && e.firstLine == LineSum(entries, i)
    && e.uncompressedSize > 0 && e.compressedSize > 0 && e.lineCount <= e.uncompressedSize && (e.flags == 0 || e.flags == 1)
  }

  lemma {:induction false} EndsAreSums(entries: seq<ChunkEntry>, n: nat)
    requires n <= |entries|
    requires forall i :: 0 <= i < n ==> (ChunkInPlace(entries, i) && LinesInPlace(entries, i)) || InOrder(entries, i)
    ensures EndBefore(entries, n) == ByteSum(entries, n) && LinesBefore(entries, n) == LineSum(entries, n)
    decreases n
  {
    if n > 0 {
      EndsAreSums(entries, n - 1);
      assert (ChunkInPlace(entries, n - 1) && LinesInPlace(entries, n - 1)) || InOrder(entries, n - 1);
    }
  }

  lemma {:induction false} InOrderIff(entries: seq<ChunkEntry>, i: nat)
    requires i < |entries|
    requires forall j :: 0 <= j < i ==> (ChunkInPlace(entries, j) && LinesInPlace(entries, j)) || InOrder(entries, j)
    ensures InOrder(entries, i) <==> ChunkInPlace(entries, i) && LinesInPlace(entries, i) && EntryWellFormed(entries[i])
  {
    EndsAreSums(entries, i);
  }

  lemma {:induction false} AllInOrder(entries: seq<ChunkEntry>)
    ensures (forall i :: 0 <= i < |entries| ==> InOrder(entries, i)) <==>
              forall i :: 0 <= i < |entries| ==> ChunkInPlace(entries, i) && LinesInPlace(entries, i) && EntryWellFormed(entries[i])
  {
    hide InOrder, EntryWellFormed, ChunkInPlace, LinesInPlace;
    if forall i :: 0 <= i < |entries| ==> InOrder(entries, i) {
      forall i | 0 <= i < |entries| ensures ChunkInPlace(entries, i) && LinesInPlace(entries, i) && EntryWellFormed(entries[i]) {
        InOrderIff(entries, i);
      }
    } else if forall i :: 0 <= i < |entries| ==> ChunkInPlace(entries, i) && LinesInPlace(entries, i) && EntryWellFormed(entries[i]) {
      forall i | 0 <= i < |entries| ensures InOrder(entries, i) { InOrderIff(entries, i); }
    }
  }

  /** A table is accepted exactly when every entry is in order and the sums are the announced totals. */
  lemma {:induction false} AcceptedIs(entries: seq<ChunkEntry>, chunkCount: U64, originalSize: U64, lineCount: U64)
    ensures Accepted(entries, chunkCount, originalSize, lineCount) <==>
              && |entries| == chunkCount && (forall i :: 0 <= i < |entries| ==> InOrder(entries, i))
              && ByteSum(entries, |entries|) == originalSize && LineSum(entries, |entries|) == lineCount <= originalSize
  {
    AllInOrder(entries);
    if forall i :: 0 <= i < |entries| ==> InOrder(entries, i) {
      EndsAreSums(entries, |entries|);
      if entries != [] { assert ChunkInPlace(entries, |entries| - 1); }
    }
    hide InOrder, EntryWellFormed, ChunkInPlace, LinesInPlace, ByteSum, LineSum;
  }
}
