/** The chunk table: contiguous chunks in logical order, and binary search over it. */
module ChunkTable {
  import opened Bytes

  const STARTS_WITH_LINE_CONTINUATION: nat := 1

  /** A chunk table entry without physical location, dictionary and checksums. */
  datatype ChunkEntry = ChunkEntry(
    chunkId: U64,
    compressedSize: U64,
    logicalOffset: U64,
    uncompressedSize: U64,
    firstLine: U64,
    lineCount: U64,
    flags: nat)
  {
    function LogicalEnd(): nat { logicalOffset + uncompressedSize }
    function LinesEnd(): nat { firstLine + lineCount }
  }

  /** `checked_logical_end` of the chunk's bytes. */
  function CheckedLogicalEnd(e: ChunkEntry): Result<U64> { CheckedAdd(e.logicalOffset, e.uncompressedSize) }

  /** `checked_logical_end` of the chunk's lines. */
  function CheckedLinesEnd(e: ChunkEntry): Result<U64> { CheckedAdd(e.firstLine, e.lineCount) }

  /** Chunk ids are positions, chunks are nonempty, contiguous from zero, and end at `size`. */
  ghost predicate Tiles(entries: seq<ChunkEntry>, size: nat) {
    && size <= U64_MAX
    && (entries == [] <==> size == 0)
    && (forall i :: 0 <= i < |entries| ==> ChunkInPlace(entries, i))
    && (entries != [] ==> entries[|entries| - 1].LogicalEnd() == size)
  }

  ghost predicate ChunkInPlace(entries: seq<ChunkEntry>, i: nat)
    requires i < |entries|
  {
    && entries[i].chunkId == i
    && entries[i].uncompressedSize > 0
    && entries[i].logicalOffset == EndBefore(entries, i)
  }

  /** First lines continue from one chunk to the next and add up to `lines`. */
  ghost predicate LinesChain(entries: seq<ChunkEntry>, lines: nat) {
    && (forall i :: 0 <= i < |entries| ==> LinesInPlace(entries, i))
    && LinesBefore(entries, |entries|) == lines
  }

  ghost predicate LinesInPlace(entries: seq<ChunkEntry>, i: nat)
    requires i < |entries|
  {
    entries[i].firstLine == LinesBefore(entries, i)
  }

  /** End of the bytes in the first `i` chunks. */
  function EndBefore(entries: seq<ChunkEntry>, i: nat): nat
    requires i <= |entries|
  {
    if i == 0 then 0 else entries[i - 1].LogicalEnd()
  }

  /** End of the lines in the first `i` chunks. */
  function LinesBefore(entries: seq<ChunkEntry>, i: nat): nat
    requires i <= |entries|
  {
    if i == 0 then 0 else entries[i - 1].LinesEnd()
  }

  lemma {:induction false} TilesBelow(entries: seq<ChunkEntry>, size: nat, j: nat)
    requires Tiles(entries, size) && j < |entries|
    ensures entries[j].LogicalEnd() <= size
    decreases |entries| - j
  {
    if j + 1 < |entries| { assert ChunkInPlace(entries, j + 1); TilesBelow(entries, size, j + 1); }
  }

  lemma {:induction false} TilesOrdered(entries: seq<ChunkEntry>, size: nat, i: nat, j: nat)
    requires Tiles(entries, size) && i <= j < |entries|
    ensures i < j ==> entries[i].LogicalEnd() <= entries[j].logicalOffset
    ensures entries[j].LogicalEnd() <= size
    decreases j - i
  {
    TilesBelow(entries, size, j);
    assert ChunkInPlace(entries, j);
    if i < j { TilesOrdered(entries, size, i, j - 1); }
  }

  /** Number of leading chunks that end at or before `offset`. */
  function ChunkAt(entries: seq<ChunkEntry>, offset: nat, from: nat := 0): (i: nat)
    requires from <= |entries|
    ensures from <= i <= |entries|
    decreases |entries| - from
  {
    if from == |entries| || offset < entries[from].LogicalEnd() then from else ChunkAt(entries, offset, from + 1)
  }

  /** In a tiled table the chunk found is the one that contains the offset. */
  lemma {:induction false} ChunkAtContains(entries: seq<ChunkEntry>, size: nat, offset: nat, from: nat)
    requires Tiles(entries, size) && from <= |entries|
    requires from < |entries| ==> entries[from].logicalOffset <= offset
    ensures var i := ChunkAt(entries, offset, from);
            && (i < |entries| <==> from < |entries| && offset < size)
            && (i < |entries| ==> entries[i].logicalOffset <= offset < entries[i].LogicalEnd())
    decreases |entries| - from
  {
    if from < |entries| {
      TilesOrdered(entries, size, from, |entries| - 1);
      if offset >= entries[from].LogicalEnd() {
        if from + 1 < |entries| { assert ChunkInPlace(entries, from + 1); }
        ChunkAtContains(entries, size, offset, from + 1);
      } else {
        TilesOrdered(entries, size, from, from);
      }
    }
  }

  /** What a partition point by a nondecreasing end means. */
  predicate IsPartition(entries: seq<ChunkEntry>, endOf: ChunkEntry -> Result<U64>, target: nat, at: nat) {
    && at <= |entries|
    && (forall i :: 0 <= i < at ==> endOf(entries[i]).Ok? && endOf(entries[i]).value <= target)
    && (forall i :: at <= i < |entries| ==> endOf(entries[i]).Ok? && endOf(entries[i]).value > target)
  }

  predicate EndsSorted(entries: seq<ChunkEntry>, endOf: ChunkEntry -> Result<U64>) {
    && (forall i :: 0 <= i < |entries| ==> endOf(entries[i]).Ok?)
    && (forall i, j :: 0 <= i < j < |entries| ==> endOf(entries[i]).value <= endOf(entries[j]).value)
  }

  /** The shared low/high loop over chunk ends. */
  method PartitionByEnd(entries: seq<ChunkEntry>, target: nat, endOf: ChunkEntry -> Result<U64>)
    returns (r: Result<nat>)
    ensures r.Err? ==> exists i :: 0 <= i < |entries| && endOf(entries[i]).Err?
    ensures r.Ok? ==> r.value <= |entries|
    ensures EndsSorted(entries, endOf) ==> r.Ok? && IsPartition(entries, endOf, target, r.value)
  {
    var low, high := 0, |entries|;
    while low < high
      invariant 0 <= low <= high <= |entries|
      invariant EndsSorted(entries, endOf) ==>
                  && (forall i :: 0 <= i < low ==> endOf(entries[i]).value <= target)
                  && (forall i :: high <= i < |entries| ==> endOf(entries[i]).value > target)
    {
      var mid := low + (high - low) / 2;
      var end := endOf(entries[mid]);
      if end.Err? { return Err; }
      if end.value <= target { low := mid + 1; } else { high := mid; }
    }
    return Ok(low);
  }

  lemma {:induction false} TilesEndsSorted(entries: seq<ChunkEntry>, size: nat)
    requires Tiles(entries, size)
    ensures EndsSorted(entries, CheckedLogicalEnd)
  {
    forall i | 0 <= i < |entries| ensures CheckedLogicalEnd(entries[i]).Ok? { TilesOrdered(entries, size, i, i); }
    forall i, j | 0 <= i < j < |entries|
      ensures CheckedLogicalEnd(entries[i]).value <= CheckedLogicalEnd(entries[j]).value
    {
      TilesOrdered(entries, size, i, j);
      TilesOrdered(entries, size, j, j);
    }
  }

  /** `chunk_index_for_logical_offset` on an accepted table. */
  method ChunkIndexForOffset(entries: seq<ChunkEntry>, offset: nat, ghost size: nat) returns (r: Result<nat>)
    requires Tiles(entries, size)
    ensures r == Ok(ChunkAt(entries, offset))
  {
    TilesEndsSorted(entries, size);
    r := PartitionByEnd(entries, offset, CheckedLogicalEnd);
    PartitionIsChunkAt(entries, size, offset, r.value, 0);
  }

  lemma {:induction false} PartitionIsChunkAt(entries: seq<ChunkEntry>, size: nat, offset: nat, at: nat, from: nat)
    requires Tiles(entries, size) && IsPartition(entries, CheckedLogicalEnd, offset, at) && from <= at
    ensures ChunkAt(entries, offset, from) == at
    decreases at - from
  {
    if from < |entries| { assert CheckedLogicalEnd(entries[from]).Ok?; }
    if from < at { PartitionIsChunkAt(entries, size, offset, at, from + 1); }
  }

  /** The chunk-id span of a nonempty range: exactly the chunks that intersect it. */
  method ChunkSpanForRange(entries: seq<ChunkEntry>, start: nat, end: nat, ghost size: nat)
    returns (r: Result<(U64, U64)>)
    requires Tiles(entries, size)
    ensures start < end <= size ==> r == Ok((ChunkAt(entries, start), ChunkAt(entries, end - 1) + 1))
  {
    var first := ChunkIndexForOffset(entries, start, size);
    var last := ChunkIndexForOffset(entries, SaturatingSub(end, 1), size);
    if first.value >= |entries| || last.value >= |entries| {
      if start < end <= size { assert ChunkInPlace(entries, 0); ChunkAtContains(entries, size, start, 0); ChunkAtContains(entries, size, end - 1, 0); }
      return Err;
    }
    assert ChunkInPlace(entries, first.value) && ChunkInPlace(entries, last.value);
    var next := CheckedAdd(entries[last.value].chunkId, 1);
    if next.Err? {
      ManyChunksManyBytes(entries, size, last.value);
      return Err;
    }
    return Ok((entries[first.value].chunkId, next.value));
  }

  /** Nonempty chunks keep ids below the text size, so `chunk_id + 1` cannot overflow. */
  lemma {:induction false} ManyChunksManyBytes(entries: seq<ChunkEntry>, size: nat, i: nat)
    requires Tiles(entries, size) && i < |entries|
    ensures i <= entries[i].logicalOffset && i + 1 <= size
    decreases i
  {
    assert ChunkInPlace(entries, i);
    TilesOrdered(entries, size, i, i);
    if i > 0 { ManyChunksManyBytes(entries, size, i - 1); assert ChunkInPlace(entries, i - 1); }
  }

  /** A chunk intersects a range exactly when its id lies in the span. */
  lemma {:induction false} SpanIsIntersection(entries: seq<ChunkEntry>, size: nat, start: nat, end: nat, i: nat)
    requires Tiles(entries, size) && start < end <= size && i < |entries|
    ensures ChunkAt(entries, start) <= i <= ChunkAt(entries, end - 1)
            <==> entries[i].logicalOffset < end && start < entries[i].LogicalEnd()
  {
    assert ChunkInPlace(entries, 0) && ChunkInPlace(entries, i);
    ChunkAtContains(entries, size, start, 0);
    ChunkAtContains(entries, size, end - 1, 0);
    var a, b := ChunkAt(entries, start), ChunkAt(entries, end - 1);
    if i < a { TilesOrdered(entries, size, i, a); }
    if a < i { TilesOrdered(entries, size, a, i); }
    if i < b { TilesOrdered(entries, size, i, b); }
    if b < i { TilesOrdered(entries, size, b, i); }
  }

  /** Everything the structural checks of the table establish. */
  ghost predicate Accepted(entries: seq<ChunkEntry>, chunkCount: nat, originalSize: nat, lineCount: nat) {
    && |entries| == chunkCount
    && Tiles(entries, originalSize)
    && LinesChain(entries, lineCount)
    && lineCount <= originalSize
    && forall i :: 0 <= i < |entries| ==> EntryWellFormed(entries[i])
  }

  predicate EntryWellFormed(e: ChunkEntry) {
    e.compressedSize > 0 && e.lineCount <= e.uncompressedSize && e.flags <= STARTS_WITH_LINE_CONTINUATION
  }

  /** The checks made on one entry against the running offset and line. */
  predicate EntryAccepted(e: ChunkEntry, index: nat, expectedOffset: nat, expectedLine: nat) {
    && e.chunkId == index
    && e.logicalOffset == expectedOffset
    && e.firstLine == expectedLine
    && e.uncompressedSize > 0
    && EntryWellFormed(e)
  }

  ghost predicate AllAccepted(entries: seq<ChunkEntry>, n: nat)
    requires n <= |entries|
  {
    forall i :: 0 <= i < n ==> AcceptedAt(entries, i)
  }

  predicate AcceptedAt(entries: seq<ChunkEntry>, i: nat)
    requires i < |entries|
  {
    EntryAccepted(entries[i], i, EndBefore(entries, i), LinesBefore(entries, i))
  }

  lemma {:induction false} AcceptedIffAll(entries: seq<ChunkEntry>, chunkCount: nat, originalSize: nat, lineCount: nat)
    requires 0 < |entries| == chunkCount && 0 < originalSize <= U64_MAX
    ensures Accepted(entries, chunkCount, originalSize, lineCount)
            <==> && AllAccepted(entries, |entries|)
                 && EndBefore(entries, |entries|) == originalSize
                 && LinesBefore(entries, |entries|) == lineCount <= originalSize
  {
    hide EntryWellFormed, ChunkInPlace, LinesInPlace, AcceptedAt;
    forall i | 0 <= i < |entries|
      ensures AcceptedAt(entries, i) <==> ChunkInPlace(entries, i) && LinesInPlace(entries, i) && EntryWellFormed(entries[i])
    {
      AcceptedAtIff(entries, i);
    }
  }

  lemma {:induction false} AcceptedAtIff(entries: seq<ChunkEntry>, i: nat)
    requires i < |entries|
    ensures AcceptedAt(entries, i) <==> ChunkInPlace(entries, i) && LinesInPlace(entries, i) && EntryWellFormed(entries[i])
  {
  }

  lemma {:induction false} RunningTotalsGrow(entries: seq<ChunkEntry>, i: nat, j: nat)
    requires AllAccepted(entries, |entries|) && i <= j <= |entries|
    ensures EndBefore(entries, i) <= EndBefore(entries, j) && LinesBefore(entries, i) <= LinesBefore(entries, j)
    decreases j - i
  {
    if i < j {
      RunningTotalsGrow(entries, i, j - 1);
      assert AcceptedAt(entries, j - 1);
    }
  }

  /** `validate_chunk_table_block` after its fixed-size records have been decoded. */
  method ValidateChunkTable(entries: seq<ChunkEntry>, chunkCount: U64, originalSize: U64, lineCount: U64)
    returns (ok: bool)
    ensures ok <==> Accepted(entries, chunkCount, originalSize, lineCount)
  {
    if |entries| != chunkCount { return false; }
    if originalSize == 0 {
      return chunkCount == 0 && lineCount == 0;
    }
    if chunkCount == 0 { return false; }
    AcceptedIffAll(entries, chunkCount, originalSize, lineCount);
    if lineCount > originalSize { return false; }
    var expectedOffset: U64, expectedLine: U64 := 0, 0;
    for index := 0 to |entries|
      invariant AllAccepted(entries, index)
      invariant expectedOffset == EndBefore(entries, index) && expectedLine == LinesBefore(entries, index)
    {
      if !EntryAccepted(entries[index], index, expectedOffset, expectedLine) {
        assert !AcceptedAt(entries, index);
        return false;
      }
      var nextOffset := CheckedAdd(expectedOffset, entries[index].uncompressedSize);
      var nextLine := CheckedAdd(expectedLine, entries[index].lineCount);
      if nextOffset.Err? || nextLine.Err? {
        if AllAccepted(entries, |entries|) { RunningTotalsGrow(entries, index + 1, |entries|); }
        return false;
      }
      expectedOffset, expectedLine := nextOffset.value, nextLine.value;
    }
    return expectedOffset == originalSize && expectedLine == lineCount;
  }
}
