/**
 * Range reads through a one-entry cache of the last decoded chunk, and the
 * pre-check that predicts their physical cost. Decompression is modelled as
 * taking the chunk's slice of the original text.
 */
module ChunkCache {
  import opened Bytes
  import opened ChunkTable

  /** A container: an accepted chunk table over an original text. */
  datatype Container = Container(entries: seq<ChunkEntry>, text: seq<Byte>) {
    ghost predicate Valid() { Tiles(entries, |text|) }
  }

  lemma {:induction false} TextFits(c: Container)
    requires c.Valid()
    ensures |c.text| <= U64_MAX == 0xFFFF_FFFF_FFFF_FFFF
  {
  }

  function ChunkText(c: Container, e: ChunkEntry): seq<Byte>
    requires e.LogicalEnd() <= |c.text|
  {
    c.text[e.logicalOffset..e.LogicalEnd()]
  }

  /** The cached chunk and the counters of work done so far. */
  datatype CacheState = CacheState(chunkId: Option<U64>, decoded: seq<Byte>, bytes: U64, chunks: U64, compressed: U64)

  const EMPTY_CACHE := CacheState(None, [], 0, 0, 0)

  /** The cached bytes are those of the cached chunk. */
  ghost predicate Consistent(c: Container, s: CacheState)
    requires c.Valid()
  {
    s.chunkId.Some? ==>
      && s.chunkId.value < |c.entries|
      && c.entries[s.chunkId.value].LogicalEnd() <= |c.text|
      && s.decoded == ChunkText(c, c.entries[s.chunkId.value])
  }

  /** `decoded_entry`: a hit is free, a miss decodes and charges the whole chunk. */
  function Touch(c: Container, s: CacheState, e: ChunkEntry): Result<CacheState>
    requires e.LogicalEnd() <= |c.text|
  {
    if s.chunkId == Some(e.chunkId) then Ok(s)
    else if s.bytes + e.uncompressedSize > U64_MAX || s.chunks + 1 > U64_MAX || s.compressed + e.compressedSize > U64_MAX then Err
    else Ok(CacheState(Some(e.chunkId), ChunkText(c, e), s.bytes + e.uncompressedSize, s.chunks + 1, s.compressed + e.compressedSize))
  }

  /** Chunks `from..past` decoded in order. */
  ghost function TouchSpan(c: Container, s: CacheState, from: nat, past: nat): Result<CacheState>
    requires c.Valid() && from <= past <= |c.entries|
    decreases |c.entries| - from
  {
    if from == past then Ok(s)
    else
      TilesBelow(c.entries, |c.text|, from);
      match Touch(c, s, c.entries[from])
      case Err => Err
      case Ok(next) => TouchSpan(c, next, from + 1, past)
  }

  lemma {:induction false} TouchSpanSplit(c: Container, s: CacheState, from: nat, mid: nat, past: nat)
    requires c.Valid() && from <= mid <= past <= |c.entries|
    ensures TouchSpan(c, s, from, past)
            == match TouchSpan(c, s, from, mid) case Err => Err case Ok(s') => TouchSpan(c, s', mid, past)
    decreases mid - from
  {
    if from < mid {
      TilesBelow(c.entries, |c.text|, from);
      var next := Touch(c, s, c.entries[from]);
      if next.Ok? { TouchSpanSplit(c, next.value, from + 1, mid, past); }
    }
  }

  // ----- exact cost -----

  /** Uncompressed size of chunks `from..past`. */
  function SpanBytes(entries: seq<ChunkEntry>, from: nat, past: nat): nat
    requires from <= past <= |entries|
    decreases |entries| - from
  {
    if from == past then 0 else entries[from].uncompressedSize + SpanBytes(entries, from + 1, past)
  }

  /** A read is spared its first chunk exactly when that one is cached. */
  function Spared(s: CacheState, from: nat, past: nat): nat { if from < past && s.chunkId == Some(from) then 1 else 0 }

  function NeededBytes(entries: seq<ChunkEntry>, s: CacheState, from: nat, past: nat): nat
    requires from <= past <= |entries|
  {
    if Spared(s, from, past) == 1 then SpanBytes(entries, from + 1, past) else SpanBytes(entries, from, past)
  }

  function NeededChunks(s: CacheState, from: nat, past: nat): nat
    requires from <= past
  {
    past - from - Spared(s, from, past)
  }

  /** Reading a span decodes each of its chunks once, except a first chunk already cached. */
  lemma {:induction false} TouchSpanCost(c: Container, s: CacheState, from: nat, past: nat)
    requires c.Valid() && from <= past <= |c.entries| && Consistent(c, s)
    requires TouchSpan(c, s, from, past).Ok?
    ensures Consistent(c, TouchSpan(c, s, from, past).value)
    ensures TouchSpan(c, s, from, past).value.bytes == s.bytes + NeededBytes(c.entries, s, from, past)
    ensures TouchSpan(c, s, from, past).value.chunks == s.chunks + NeededChunks(s, from, past)
    ensures from < past ==> TouchSpan(c, s, from, past).value.chunkId == Some(past - 1)
    decreases |c.entries| - from
  {
    if from < past {
      TilesBelow(c.entries, |c.text|, from);
      assert ChunkInPlace(c.entries, from);
      var s1 := Touch(c, s, c.entries[from]).value;
      TouchSpanCost(c, s1, from + 1, past);
      assert Spared(s1, from + 1, past) == 0;
    }
  }

  datatype Cap = DecodedBytes | PhysicalBytes | PhysicalChunks | SearchResults | CandidateGranules

  /** `search_limit_for_span` from given counters. */
  function SpanLimit(entries: seq<ChunkEntry>, cached: Option<U64>, bytes: U64, chunks: U64, from: nat, past: nat, maxBytes: U64, maxChunks: U64): Result<Option<Cap>>
    requires from <= past <= |entries|
    decreases |entries| - from
  {
    if from == past then Ok(None)
    else if cached == Some(entries[from].chunkId) then SpanLimit(entries, cached, bytes, chunks, from + 1, past, maxBytes, maxChunks)
    else if bytes + entries[from].uncompressedSize > U64_MAX then Err
    else if bytes + entries[from].uncompressedSize > maxBytes then Ok(Some(PhysicalBytes))
    else if chunks + 1 > U64_MAX then Err
    else if chunks + 1 > maxChunks then Ok(Some(PhysicalChunks))
    else SpanLimit(entries, Some(entries[from].chunkId), bytes + entries[from].uncompressedSize, chunks + 1, from + 1, past, maxBytes, maxChunks)
  }

  function SpanLimitFor(entries: seq<ChunkEntry>, s: CacheState, from: nat, past: nat, maxBytes: U64, maxChunks: U64): Result<Option<Cap>>
    requires from <= past <= |entries|
  {
    SpanLimit(entries, s.chunkId, s.bytes, s.chunks, from, past, maxBytes, maxChunks)
  }

  /** The pre-check passes exactly when the read it precedes stays within both limits. */
  lemma {:induction false} PreflightExact(c: Container, s: CacheState, from: nat, past: nat, maxBytes: U64, maxChunks: U64)
    requires c.Valid() && from <= past <= |c.entries| && s.bytes <= maxBytes && s.chunks <= maxChunks
    ensures SpanLimitFor(c.entries, s, from, past, maxBytes, maxChunks) == Ok(None)
            <==> && s.bytes + NeededBytes(c.entries, s, from, past) <= maxBytes
                 && s.chunks + NeededChunks(s, from, past) <= maxChunks
    decreases |c.entries| - from
  {
    if from < past {
      assert ChunkInPlace(c.entries, from);
      var e := c.entries[from];
      if s.chunkId == Some(from) {
        PreflightExact(c, s, from + 1, past, maxBytes, maxChunks);
        assert Spared(s, from + 1, past) == 0;
      } else if s.bytes + e.uncompressedSize <= maxBytes && s.chunks + 1 <= maxChunks {
        var s1 := CacheState(Some(from), [], s.bytes + e.uncompressedSize, s.chunks + 1, 0);
        PreflightExact(c, s1, from + 1, past, maxBytes, maxChunks);
        assert Spared(s1, from + 1, past) == 0;
      }
    }
  }

  /** Larger limits never make a passing pre-check fail, nor turn a verdict into an error earlier. */
  lemma {:induction false} PreflightMonotone(entries: seq<ChunkEntry>, cached: Option<U64>, bytes: U64, chunks: U64, from: nat, past: nat,
                                            b1: U64, c1: U64, b2: U64, c2: U64)
    requires from <= past <= |entries| && b1 <= b2 && c1 <= c2
    ensures SpanLimit(entries, cached, bytes, chunks, from, past, b1, c1) == Ok(None) ==>
              SpanLimit(entries, cached, bytes, chunks, from, past, b2, c2) == Ok(None)
    ensures SpanLimit(entries, cached, bytes, chunks, from, past, b1, c1).Err? ==>
              SpanLimit(entries, cached, bytes, chunks, from, past, b2, c2).Err?
    decreases |entries| - from
  {
    if from < past {
      var e := entries[from];
      if cached == Some(e.chunkId) {
        PreflightMonotone(entries, cached, bytes, chunks, from + 1, past, b1, c1, b2, c2);
      } else if bytes + e.uncompressedSize <= U64_MAX && chunks + 1 <= U64_MAX {
        PreflightMonotone(entries, Some(e.chunkId), bytes + e.uncompressedSize, chunks + 1, from + 1, past, b1, c1, b2, c2);
      }
    }
  }

  // ----- the cache object -----

  class ChunkDecodeCache {
    var chunkId: Option<U64>
    var decoded: seq<Byte>
    var physicalDecodedBytes: U64
    var decodedChunks: U64
    var compressedBytes: U64

    ghost function Now(): CacheState
      reads this
    {
      CacheState(chunkId, decoded, physicalDecodedBytes, decodedChunks, compressedBytes)
    }

    constructor ()
      ensures Now() == EMPTY_CACHE
    {
      chunkId, decoded, physicalDecodedBytes, decodedChunks, compressedBytes := None, [], 0, 0, 0;
    }

    /** Changes nothing: a refused read leaves cache and reader untouched. */
    method SearchLimitForSpan(entries: seq<ChunkEntry>, chunkStart: U64, chunkEnd: U64, maxBytes: U64, maxChunks: U64)
      returns (r: Result<Option<Cap>>)
      ensures chunkStart <= chunkEnd <= |entries| ==>
                r == SpanLimitFor(entries, Now(), chunkStart, chunkEnd, maxBytes, maxChunks)
      ensures !(chunkStart <= chunkEnd <= |entries|) ==> r.Err?
    {
      if !(chunkStart <= chunkEnd <= |entries|) { return Err; }
      var cached := chunkId;
      var bytes: U64, chunks: U64 := physicalDecodedBytes, decodedChunks;
      for i := chunkStart to chunkEnd
        invariant SpanLimitFor(entries, Now(), chunkStart, chunkEnd, maxBytes, maxChunks)
                  == SpanLimit(entries, cached, bytes, chunks, i, chunkEnd, maxBytes, maxChunks)
      {
        var e := entries[i];
        if cached != Some(e.chunkId) {
          if bytes + e.uncompressedSize > U64_MAX { return Err; }
          bytes := bytes + e.uncompressedSize;
          if bytes > maxBytes { return Ok(Some(PhysicalBytes)); }
          if chunks + 1 > U64_MAX { return Err; }
          chunks := chunks + 1;
          if chunks > maxChunks { return Ok(Some(PhysicalChunks)); }
          cached := Some(e.chunkId);
        }
      }
      return Ok(None);
    }

    method DecodedEntry(c: Container, e: ChunkEntry) returns (r: Result<seq<Byte>>)
      requires e.LogicalEnd() <= |c.text|
      modifies this
      ensures match Touch(c, old(Now()), e)
              case Err => r.Err?
              case Ok(s) => Now() == s && r == Ok(s.decoded)
    {
      if chunkId != Some(e.chunkId) {
        decoded := ChunkText(c, e);
        chunkId := Some(e.chunkId);
        if physicalDecodedBytes + e.uncompressedSize > U64_MAX { return Err; }
        physicalDecodedBytes := physicalDecodedBytes + e.uncompressedSize;
        if decodedChunks + 1 > U64_MAX { return Err; }
        decodedChunks := decodedChunks + 1;
        if compressedBytes + e.compressedSize > U64_MAX { return Err; }
        compressedBytes := compressedBytes + e.compressedSize;
      }
      return Ok(decoded);
    }
  }

  /** First chunk of a nonempty range, and one past its last. */
  ghost function FirstChunk(c: Container, offset: nat): nat { ChunkAt(c.entries, offset) }

  ghost function PastChunk(c: Container, end: nat): nat
    requires end > 0
  {
    ChunkAt(c.entries, end - 1) + 1
  }

  lemma {:induction false} RangeChunks(c: Container, offset: nat, end: nat)
    requires c.Valid() && offset < end <= |c.text|
    ensures var a, b := FirstChunk(c, offset), PastChunk(c, end);
            && a < b <= |c.entries|
            && c.entries[a].logicalOffset <= offset < c.entries[a].LogicalEnd()
            && c.entries[b - 1].logicalOffset < end <= c.entries[b - 1].LogicalEnd()
            && (b < |c.entries| ==> end <= c.entries[b].logicalOffset)
  {
    assert ChunkInPlace(c.entries, 0);
    ChunkAtContains(c.entries, |c.text|, offset, 0);
    ChunkAtContains(c.entries, |c.text|, end - 1, 0);
    var a, b := FirstChunk(c, offset), PastChunk(c, end);
    if b - 1 < a { TilesOrdered(c.entries, |c.text|, b - 1, a); }
    if b < |c.entries| { assert ChunkInPlace(c.entries, b); }
  }

  /** One turn of the copy loop: decode the chunk, append its requested part. */
  method CopyChunk(c: Container, offset: U64, end: U64, ghost first: nat, index: nat, ghost past: nat, ghost s0: CacheState, output: seq<Byte>, cache: ChunkDecodeCache)
    returns (r: Result<seq<Byte>>)
    requires c.Valid() && offset < end <= |c.text| && first <= index < past <= |c.entries|
    requires c.entries[first].logicalOffset <= offset < c.entries[first].LogicalEnd()
    requires c.entries[index].logicalOffset < end
    requires Consistent(c, cache.Now()) && TouchSpan(c, s0, first, index) == Ok(cache.Now())
    requires Copied(c, offset, end, first, index, output)
    modifies cache
    ensures r.Err? ==> TouchSpan(c, s0, first, past).Err?
    ensures r.Ok? ==> Consistent(c, cache.Now()) && TouchSpan(c, s0, first, index + 1) == Ok(cache.Now())
    ensures r.Ok? ==> Copied(c, offset, end, first, index + 1, r.value)
  {
    hide TouchSpan, Touch, ChunkAt, Tiles, ChunkInPlace, Consistent, Copied;
    TouchNext(c, s0, cache.Now(), first, index, past);
    CopyStep(c, offset, end, first, index, output);
    var e := c.entries[index];
    var decoded := cache.DecodedEntry(c, e);
    if decoded.Err? { return Err; }
    var copyStart, copyEnd := Max(offset, e.logicalOffset), Min(end, e.LogicalEnd());
    return Ok(output + decoded.value[copyStart - e.logicalOffset..copyEnd - e.logicalOffset]);
  }

  /** From any consistent cache a range read returns exactly the original slice, at exactly its cost. */
  method ReadRangeCached(c: Container, offset: U64, length: U64, cache: ChunkDecodeCache) returns (r: Result<seq<Byte>>)
    requires c.Valid() && Consistent(c, cache.Now())
    modifies cache
    ensures offset + length > |c.text| ==> r.Err? && cache.Now() == old(cache.Now())
    ensures offset + length <= |c.text| && length == 0 ==> r == Ok([]) && cache.Now() == old(cache.Now())
    ensures offset + length <= |c.text| && length > 0 ==>
              && FirstChunk(c, offset) <= PastChunk(c, offset + length) <= |c.entries|
              && match TouchSpan(c, old(cache.Now()), FirstChunk(c, offset), PastChunk(c, offset + length))
                 case Err => r.Err?
                 case Ok(s) => r == Ok(c.text[offset..offset + length]) && cache.Now() == s && Consistent(c, s)
  {
    hide TouchSpan, Touch, ChunkAt, ChunkInPlace, Consistent, SpanBytes;
    if offset + length > U64_MAX { return Err; }
    var end := offset + length;
    if end > |c.text| { return Err; }
    if length == 0 { return Ok([]); }
    RangeChunks(c, offset, end);
    var output: seq<Byte> := [];
    var start := ChunkIndexForOffset(c.entries, offset, |c.text|);
    var index := start.value;
    ghost var first, past := index, PastChunk(c, end);
    ghost var s0 := cache.Now();
    assert TouchSpan(c, s0, first, index) == Ok(s0) by { TouchNothing(c, s0, first); }
    hide Copied;
    assert Copied(c, offset, end, first, index, output) by { CopiedNothing(c, offset, end, first); }
    while index < |c.entries| && c.entries[index].logicalOffset < end
      invariant first <= index <= past
      invariant Consistent(c, cache.Now()) && TouchSpan(c, s0, first, index) == Ok(cache.Now())
      invariant Copied(c, offset, end, first, index, output)
      decreases |c.entries| - index
    {
      BeforePast(c, end, index);
      var next := CopyChunk(c, offset, end, first, index, past, s0, output, cache);
      if next.Err? { return Err; }
      output, index := next.value, index + 1;
    }
    CopyDone(c, offset, end, first, index, past, output);
    if |output| != length { return Err; }
    return Ok(output);
  }

  /** Copied so far: the requested bytes that lie in chunks before `index`. */
  ghost predicate Copied(c: Container, offset: nat, end: nat, first: nat, index: nat, output: seq<Byte>)
    requires c.Valid() && first <= index <= |c.entries|
  {
    var upTo := if index == first then offset else Min(end, EndBefore(c.entries, index));
    offset <= upTo <= |c.text| && output == c.text[offset..upTo]
  }

  lemma {:induction false} CopiedNothing(c: Container, offset: nat, end: nat, first: nat)
    requires c.Valid() && first <= |c.entries| && offset <= |c.text|
    ensures Copied(c, offset, end, first, first, [])
  {
  }

  lemma {:induction false} TouchNothing(c: Container, s: CacheState, first: nat)
    requires c.Valid() && first <= |c.entries|
    ensures TouchSpan(c, s, first, first) == Ok(s)
  {
  }

  lemma {:induction false} BeforePast(c: Container, end: nat, index: nat)
    requires c.Valid() && 0 < end <= |c.text| && index < |c.entries| && c.entries[index].logicalOffset < end
    ensures index < PastChunk(c, end)
  {
    assert ChunkInPlace(c.entries, 0);
    ChunkAtContains(c.entries, |c.text|, end - 1, 0);
    var last := PastChunk(c, end) - 1;
    if last < index { TilesOrdered(c.entries, |c.text|, last, index); }
  }

  lemma {:induction false} TouchNext(c: Container, s0: CacheState, s: CacheState, first: nat, index: nat, past: nat)
    requires c.Valid() && first <= index < past <= |c.entries|
    requires TouchSpan(c, s0, first, index) == Ok(s) && Consistent(c, s)
    ensures c.entries[index].LogicalEnd() <= |c.text|
    ensures var next := Touch(c, s, c.entries[index]);
            && TouchSpan(c, s0, first, index + 1) == next
            && (next.Err? ==> TouchSpan(c, s0, first, past).Err?)
            && (next.Ok? ==> Consistent(c, next.value) && next.value.decoded == ChunkText(c, c.entries[index]))
  {
    TilesBelow(c.entries, |c.text|, index);
    assert ChunkInPlace(c.entries, index);
    TouchSpanSplit(c, s0, first, index, index + 1);
    TouchSpanSplit(c, s0, first, index, past);
    var next := Touch(c, s, c.entries[index]);
    if next.Ok? { assert TouchSpan(c, next.value, index + 1, index + 1) == Ok(next.value); }
  }

  lemma {:induction false} CopyStep(c: Container, offset: nat, end: nat, first: nat, index: nat, output: seq<Byte>)
    requires c.Valid() && offset < end <= |c.text| && first <= index < |c.entries|
    requires c.entries[first].logicalOffset <= offset < c.entries[first].LogicalEnd()
    requires c.entries[index].logicalOffset < end && Copied(c, offset, end, first, index, output)
    ensures var e := c.entries[index];
            && e.LogicalEnd() <= |c.text| && Max(offset, e.logicalOffset) <= Min(end, e.LogicalEnd())
            && Copied(c, offset, end, first, index + 1,
                      output + ChunkText(c, e)[Max(offset, e.logicalOffset) - e.logicalOffset..Min(end, e.LogicalEnd()) - e.logicalOffset])
  {
    var e := c.entries[index];
    TilesBelow(c.entries, |c.text|, index);
    assert ChunkInPlace(c.entries, index);
    if first < index { TilesOrdered(c.entries, |c.text|, first, index); }
    var a, b := Max(offset, e.logicalOffset), Min(end, e.LogicalEnd());
    assert e.logicalOffset <= a <= b <= e.LogicalEnd() && offset <= a;
    SliceOfSlice(c.text, e.logicalOffset, e.LogicalEnd(), a, b);
    assert output == c.text[offset..a];
    assert c.text[offset..a] + c.text[a..b] == c.text[offset..b];
  }

  lemma {:induction false} CopyDone(c: Container, offset: nat, end: nat, first: nat, index: nat, past: nat, output: seq<Byte>)
    requires c.Valid() && offset < end <= |c.text| && first == FirstChunk(c, offset) && past == PastChunk(c, end)
    requires first <= index <= past <= |c.entries| && Copied(c, offset, end, first, index, output)
    requires index < |c.entries| ==> c.entries[index].logicalOffset >= end
    ensures index == past && output == c.text[offset..end]
  {
    RangeChunks(c, offset, end);
    if index < past { TilesOrdered(c.entries, |c.text|, index, past - 1); }
  }
}
