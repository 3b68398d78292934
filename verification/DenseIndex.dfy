/** The Dense Line Index: per-chunk line start offsets, delta-varint coded. */
module DenseIndex {
  import opened Bytes
  import opened Varint
  import opened Delta
  import opened Lines
  import opened ChunkTable

  datatype DenseEntry = DenseEntry(chunkId: U64, offsets: seq<U64>)

  predicate NonDecreasing(values: seq<U64>) {
    forall i :: 0 <= i < |values| - 1 ==> Adjacent(values, i)
  }

  predicate Adjacent(values: seq<U64>, i: nat)
    requires i + 1 < |values|
  {
    values[i] <= values[i + 1]
  }

  predicate Encodable(e: DenseEntry) { |e.offsets| <= U64_MAX && NonDecreasing(e.offsets) }

  function EntryBytes(e: DenseEntry): (bytes: seq<Byte>)
    requires |e.offsets| <= U64_MAX
    ensures |bytes| >= 2 + |e.offsets|
  {
    Write(e.chunkId) + Write(|e.offsets|) + Tail(0, e.offsets)
  }

  ghost predicate AllEncodable(es: seq<DenseEntry>) {
    forall i :: 0 <= i < |es| ==> Encodable(es[i])
  }

  /** The concatenated entries. */
  ghost function EntriesBytes(es: seq<DenseEntry>): (bytes: seq<Byte>)
    requires AllEncodable(es)
    ensures |bytes| >= 2 * |es|
  {
    if es == [] then [] else EntriesBytes(es[..|es| - 1]) + EntryBytes(es[|es| - 1])
  }

  ghost function IndexBytes(es: seq<DenseEntry>): seq<Byte>
    requires AllEncodable(es)
  {
    Write(|es|) + EntriesBytes(es)
  }

  lemma {:induction false} EntriesBytesPrefix(es: seq<DenseEntry>, n: nat)
    requires AllEncodable(es) && n <= |es|
    ensures EntriesBytes(es[..n]) <= EntriesBytes(es)
    decreases |es| - n
  {
    if n < |es| {
      var front := es[..|es| - 1];
      assert front[..n] == es[..n];
      EntriesBytesPrefix(front, n);
    } else {
      assert es[..n] == es;
    }
  }

  // ----- encoding -----

  lemma {:induction false} TailNone(values: seq<U64>)
    ensures Tail(0, values[..0]) == []
  {
  }

  /** One entry: fails exactly when some offset is below its predecessor. */
  method EncodeEntry(e: DenseEntry, output: seq<Byte>) returns (r: Result<seq<Byte>>)
    ensures r.Ok? <==> Encodable(e)
    ensures r.Ok? ==> r.value == output + EntryBytes(e)
  {
    hide Write, Tail;
    if |e.offsets| > U64_MAX { return Err; }
    var bytes := WriteVaruint(e.chunkId, output);
    bytes := WriteVaruint(|e.offsets|, bytes);
    ghost var head := bytes;
    TailNone(e.offsets);
    var previous: U64 := 0;
    for index := 0 to |e.offsets|
      invariant forall i :: 0 <= i < index - 1 ==> Adjacent(e.offsets, i)
      invariant previous == Last(0, e.offsets[..index])
      invariant bytes == head + Tail(0, e.offsets[..index])
    {
      var offset := e.offsets[index];
      if index > 0 && offset < previous {
        assert !Adjacent(e.offsets, index - 1);
        return Err;
      }
      assert e.offsets[..index + 1] == e.offsets[..index] + [offset];
      TailSnoc(0, e.offsets[..index], offset);
      bytes := WriteVaruint(if index == 0 then offset else offset - previous, bytes);
      previous := offset;
    }
    assert e.offsets[..|e.offsets|] == e.offsets;
    assert bytes == output + (Write(e.chunkId) + Write(|e.offsets|) + Tail(0, e.offsets));
    return Ok(bytes);
  }

  method Encode(es: seq<DenseEntry>) returns (r: Result<seq<Byte>>)
    ensures r.Ok? <==> |es| <= U64_MAX && AllEncodable(es)
    ensures r.Ok? ==> r.value == IndexBytes(es)
  {
    hide EntryBytes, Write;
    if |es| > U64_MAX { return Err; }
    var bytes := WriteVaruint(|es|, []);
    for i := 0 to |es|
      invariant AllEncodable(es[..i]) && bytes == Write(|es|) + EntriesBytes(es[..i])
    {
      var next := EncodeEntry(es[i], bytes);
      if next.Err? { return Err; }
      assert es[..i + 1][..i] == es[..i];
      bytes := next.value;
    }
    assert es[..|es|] == es;
    return Ok(bytes);
  }

  method EntrySize(e: DenseEntry) returns (r: Result<nat>)
    ensures r.Ok? <==> Encodable(e)
    ensures r.Ok? ==> r.value == |EntryBytes(e)|
  {
    hide Write, Tail;
    if |e.offsets| > U64_MAX { return Err; }
    TailNone(e.offsets);
    var idLen := VaruintLen(e.chunkId);
    var countLen := VaruintLen(|e.offsets|);
    var size := idLen + countLen;
    var previous: U64 := 0;
    for index := 0 to |e.offsets|
      invariant forall i :: 0 <= i < index - 1 ==> Adjacent(e.offsets, i)
      invariant previous == Last(0, e.offsets[..index])
      invariant size == idLen + countLen + |Tail(0, e.offsets[..index])|
    {
      var offset := e.offsets[index];
      if index > 0 && offset < previous {
        assert !Adjacent(e.offsets, index - 1);
        return Err;
      }
      assert e.offsets[..index + 1] == e.offsets[..index] + [offset];
      TailSnoc(0, e.offsets[..index], offset);
      var len := VaruintLen(if index == 0 then offset else offset - previous);
      size := size + len;
      previous := offset;
    }
    assert e.offsets[..|e.offsets|] == e.offsets;
    return Ok(size);
  }

  /** Predicts the encoded length exactly; fails where encoding does or past u64. */
  method EncodedSize(es: seq<DenseEntry>) returns (r: Result<U64>)
    ensures r.Ok? <==> |es| <= U64_MAX && AllEncodable(es) && |IndexBytes(es)| <= U64_MAX
    ensures r.Ok? ==> r.value == |IndexBytes(es)|
  {
    if |es| > U64_MAX { return Err; }
    var countLen := VaruintLen(|es|);
    WriteAtMostTen(|es|);
    var size: U64 := countLen;
    for i := 0 to |es|
      invariant AllEncodable(es[..i]) && size == |Write(|es|)| + |EntriesBytes(es[..i])|
    {
      var next := EntrySize(es[i]);
      if next.Err? { return Err; }
      assert es[..i + 1][..i] == es[..i];
      if size + next.value > U64_MAX {
        if AllEncodable(es) { EntriesBytesPrefix(es, i + 1); }
        return Err;
      }
      size := size + next.value;
    }
    assert es[..|es|] == es;
    return Ok(size);
  }

  // ----- decoding -----

  /** Reads `count` offsets, strictly increasing and below `limit`. */
  function Offsets(bytes: seq<Byte>, at: nat, count: nat, previous: Option<U64>, limit: nat): (r: Result<(seq<U64>, nat)>)
    requires at <= |bytes|
    ensures r.Ok? ==> at <= r.value.1 <= |bytes| && |r.value.0| == count
    decreases count
  {
    if count == 0 then Ok(([], at))
    else match Parse(bytes, at)
      case None => Err
      case Some((delta, next)) =>
        var offset := if previous.None? then delta else previous.value + delta;
        if offset > U64_MAX || (previous.Some? && offset <= previous.value) || offset >= limit then Err
        else
          var (rest, end) :- Offsets(bytes, next, count - 1, Some(offset), limit);
          Ok(([offset] + rest, end))
  }

  lemma {:induction false} OffsetsSound(bytes: seq<Byte>, at: nat, count: nat, previous: Option<U64>, limit: nat)
    requires at <= |bytes| && Offsets(bytes, at, count, previous, limit).Ok?
    ensures var (values, end) := Offsets(bytes, at, count, previous, limit).value;
            Continues(previous, values) && Below(values, limit) && bytes[at..end] == Tail(Base(previous), values)
    decreases count
  {
    hide *;
    OffsetsStep(bytes, at, count, previous, limit);
    if count > 0 {
      var (delta, next) := Parse(bytes, at).value;
      var offset := NextOffset(previous, delta);
      OffsetsSound(bytes, next, count - 1, Some(offset), limit);
      ParseIffWritten(bytes, at, delta, next);
      var (rest, end) := Offsets(bytes, next, count - 1, Some(offset), limit).value;
      ContinuesCons(previous, delta, rest, limit);
      assert bytes[at..end] == bytes[at..next] + bytes[next..end];
    } else {
      assert bytes[at..at] == [];
      ContinuesNone(previous, limit);
    }
  }

  function NextOffset(previous: Option<U64>, delta: U64): nat { if previous.None? then delta else previous.value + delta }

  lemma {:induction false} OffsetsStep(bytes: seq<Byte>, at: nat, count: nat, previous: Option<U64>, limit: nat)
    requires at <= |bytes| && Offsets(bytes, at, count, previous, limit).Ok?
    ensures count == 0 ==> Offsets(bytes, at, count, previous, limit) == Ok(([], at))
    ensures count > 0 ==>
              && Parse(bytes, at).Some? && Parse(bytes, at).value.1 <= |bytes|
              && var (delta, next) := Parse(bytes, at).value;
              && var offset := NextOffset(previous, delta);
              && offset <= U64_MAX == 0xFFFF_FFFF_FFFF_FFFF && offset < limit && (previous.Some? ==> previous.value < offset)
              && Offsets(bytes, next, count - 1, Some(offset), limit).Ok?
              && Offsets(bytes, at, count, previous, limit).value.0 == [offset] + Offsets(bytes, next, count - 1, Some(offset), limit).value.0
              && Offsets(bytes, at, count, previous, limit).value.1 == Offsets(bytes, next, count - 1, Some(offset), limit).value.1
  {
    hide Parse;
  }

  lemma {:induction false} ContinuesCons(previous: Option<U64>, delta: U64, rest: seq<U64>, limit: nat)
    requires NextOffset(previous, delta) <= U64_MAX && NextOffset(previous, delta) < limit
    requires previous.Some? ==> previous.value < NextOffset(previous, delta)
    requires Continues(Some(NextOffset(previous, delta)), rest) && Below(rest, limit)
    ensures var values := [NextOffset(previous, delta)] + rest;
            && Continues(previous, values) && Below(values, limit)
            && Tail(Base(previous), values) == Write(delta) + Tail(Base(Some(NextOffset(previous, delta))), rest)
  {
    hide Write;
    var values := [NextOffset(previous, delta)] + rest;
    assert values[1..] == rest;
    TailCons(Base(previous), values);
    hide Tail;
  }

  lemma {:induction false} ContinuesNone(previous: Option<U64>, limit: nat)
    ensures Continues(previous, []) && Below([], limit) && Tail(Base(previous), []) == []
  {
  }

  lemma {:induction false} OffsetsComplete(bytes: seq<Byte>, at: nat, values: seq<U64>, previous: Option<U64>, limit: nat, rest: seq<Byte>)
    requires at <= |bytes| && Continues(previous, values) && Below(values, limit)
    requires bytes[at..] == Tail(Base(previous), values) + rest
    ensures Offsets(bytes, at, |values|, previous, limit) == Ok((values, at + |Tail(Base(previous), values)|))
    decreases |values|
  {
    hide *;
    if values != [] {
      var delta := FirstDelta(previous, values, limit);
      var first, tail := Write(delta), Tail(values[0], values[1..]);
      assert bytes[at..] == first + (tail + rest);
      SplitAt(bytes, at, first, tail + rest);
      ParseWritten(bytes, at, delta);
      OffsetsComplete(bytes, at + |first|, values[1..], Some(values[0]), limit, rest);
      assert values == [values[0]] + values[1..];
      OffsetsCons(bytes, at, values, previous, limit, delta);
    } else {
      NoOffsets(bytes, at, previous, limit);
    }
  }

  lemma {:induction false} FirstDelta(previous: Option<U64>, values: seq<U64>, limit: nat) returns (delta: U64)
    requires values != [] && Continues(previous, values) && Below(values, limit)
    ensures NextOffset(previous, delta) == values[0] < limit && (previous.Some? ==> previous.value < values[0])
    ensures Continues(Some(values[0]), values[1..]) && Below(values[1..], limit)
    ensures Tail(Base(previous), values) == Write(delta) + Tail(values[0], values[1..]) && Base(Some(values[0])) == values[0]
  {
    hide Write;
    TailCons(Base(previous), values);
    hide Tail;
    delta := values[0] - Base(previous);
  }

  lemma {:induction false} OffsetsCons(bytes: seq<Byte>, at: nat, values: seq<U64>, previous: Option<U64>, limit: nat, delta: U64)
    requires at <= |bytes| && values != [] && Parse(bytes, at).Some? && Parse(bytes, at).value.0 == delta
    requires NextOffset(previous, delta) == values[0] < limit && (previous.Some? ==> previous.value < values[0])
    requires Offsets(bytes, Parse(bytes, at).value.1, |values| - 1, Some(values[0]), limit).Ok?
    ensures Offsets(bytes, at, |values|, previous, limit)
            == Ok(([values[0]] + Offsets(bytes, Parse(bytes, at).value.1, |values| - 1, Some(values[0]), limit).value.0,
                   Offsets(bytes, Parse(bytes, at).value.1, |values| - 1, Some(values[0]), limit).value.1))
  {
    hide Parse;
  }

  lemma {:induction false} NoOffsets(bytes: seq<Byte>, at: nat, previous: Option<U64>, limit: nat)
    requires at <= |bytes|
    ensures Offsets(bytes, at, 0, previous, limit) == Ok(([], at)) && Tail(Base(previous), []) == []
  {
  }

  /** Reads one entry that must match its chunk. */
  function OneEntry(bytes: seq<Byte>, at: nat, c: ChunkEntry): (r: Result<(DenseEntry, nat)>)
    requires at <= |bytes|
    ensures r.Ok? ==> at <= r.value.1 <= |bytes|
  {
    match Parse(bytes, at)
    case None => Err
    case Some((id, afterId)) =>
      if id != c.chunkId then Err
      else match Parse(bytes, afterId)
        case None => Err
        case Some((count, afterCount)) =>
          if count != c.lineCount || count > c.uncompressedSize then Err
          else
            var (offsets, end) :- Offsets(bytes, afterCount, count, None, c.uncompressedSize);
            Ok((DenseEntry(id, offsets), end))
  }

  /** The entry belongs to the chunk: same id and count, offsets increasing inside it. */
  predicate Matches(e: DenseEntry, c: ChunkEntry) {
    && e.chunkId == c.chunkId
    && |e.offsets| == c.lineCount <= c.uncompressedSize
    && Increasing(e.offsets)
    && Below(e.offsets, c.uncompressedSize)
  }

  lemma {:induction false} MatchesEncodable(e: DenseEntry, c: ChunkEntry)
    requires Matches(e, c)
    ensures Encodable(e)
  {
    forall i | 0 <= i < |e.offsets| - 1 ensures Adjacent(e.offsets, i) {
      assert e.offsets[i] < e.offsets[i + 1];
    }
  }

  lemma {:induction false} OneEntrySound(bytes: seq<Byte>, at: nat, c: ChunkEntry)
    requires at <= |bytes| && OneEntry(bytes, at, c).Ok?
    ensures var (e, end) := OneEntry(bytes, at, c).value; Matches(e, c) && bytes[at..end] == EntryBytes(e)
  {
    hide Write;
    hide Parse;
    hide Tail;
    hide Offsets;
    var (id, afterId) := Parse(bytes, at).value;
    var (count, afterCount) := Parse(bytes, afterId).value;
    var (offsets, end) := Offsets(bytes, afterCount, count, None, c.uncompressedSize).value;
    ParseIffWritten(bytes, at, id, afterId);
    ParseIffWritten(bytes, afterId, count, afterCount);
    OffsetsSound(bytes, afterCount, count, None, c.uncompressedSize);
    assert bytes[at..end] == bytes[at..afterId] + bytes[afterId..afterCount] + bytes[afterCount..end];
  }

  lemma {:induction false} OneEntryComplete(bytes: seq<Byte>, at: nat, c: ChunkEntry, e: DenseEntry, rest: seq<Byte>)
    requires at <= |bytes| && Matches(e, c) && bytes[at..] == EntryBytes(e) + rest
    ensures OneEntry(bytes, at, c) == Ok((e, at + |EntryBytes(e)|))
  {
    hide Write;
    hide Parse;
    hide Tail;
    hide Offsets;
    var a, b, t := Write(e.chunkId), Write(|e.offsets|), Tail(0, e.offsets);
    assert bytes[at..] == a + (b + (t + rest));
    SplitAt(bytes, at, a, b + (t + rest));
    SplitAt(bytes, at + |a|, b, t + rest);
    ParseWritten(bytes, at, e.chunkId);
    ParseWritten(bytes, at + |a|, |e.offsets|);
    OffsetsComplete(bytes, at + |a| + |b|, e.offsets, None, c.uncompressedSize, rest);
  }

  /** Reads the entries of chunks `n..`. */
  function EntriesFrom(bytes: seq<Byte>, at: nat, chunks: seq<ChunkEntry>, n: nat): (r: Result<(seq<DenseEntry>, nat)>)
    requires at <= |bytes| && n <= |chunks|
    ensures r.Ok? ==> at <= r.value.1 <= |bytes| && |r.value.0| == |chunks| - n
    decreases |chunks| - n
  {
    if n == |chunks| then Ok(([], at))
    else
      var (e, next) :- OneEntry(bytes, at, chunks[n]);
      var (rest, end) :- EntriesFrom(bytes, next, chunks, n + 1);
      Ok(([e] + rest, end))
  }

  predicate AllMatch(es: seq<DenseEntry>, chunks: seq<ChunkEntry>) {
    |es| == |chunks| && forall i :: 0 <= i < |es| ==> Matches(es[i], chunks[i])
  }

  lemma {:induction false} AllMatchEncodable(es: seq<DenseEntry>, chunks: seq<ChunkEntry>)
    requires AllMatch(es, chunks)
    ensures AllEncodable(es)
  {
    forall i | 0 <= i < |es| ensures Encodable(es[i]) { MatchesEncodable(es[i], chunks[i]); }
  }

  lemma {:induction false} EntriesBytesCons(es: seq<DenseEntry>)
    requires es != [] && AllEncodable(es)
    ensures EntriesBytes(es) == EntryBytes(es[0]) + EntriesBytes(es[1..])
    decreases |es|
  {
    hide EntryBytes;
    if |es| == 1 {
      assert EntriesBytes(es[..0]) == [] && EntriesBytes(es[1..]) == [];
    } else {
      var front := es[..|es| - 1];
      EntriesBytesCons(front);
      assert front[1..] == es[1..][..|es| - 2];
      assert (EntryBytes(es[0]) + EntriesBytes(front[1..])) + EntryBytes(es[|es| - 1])
          == EntryBytes(es[0]) + (EntriesBytes(front[1..]) + EntryBytes(es[|es| - 1]));
    }
  }

  lemma {:induction false} EntriesSound(bytes: seq<Byte>, at: nat, chunks: seq<ChunkEntry>, n: nat)
    requires at <= |bytes| && n <= |chunks| && EntriesFrom(bytes, at, chunks, n).Ok?
    ensures var (es, end) := EntriesFrom(bytes, at, chunks, n).value;
            AllMatch(es, chunks[n..]) && AllEncodable(es) && bytes[at..end] == EntriesBytes(es)
    decreases |chunks| - n
  {
    hide *;
    EntriesStep(bytes, at, chunks, n);
    if n < |chunks| {
      var (e, next) := OneEntry(bytes, at, chunks[n]).value;
      OneEntrySound(bytes, at, chunks[n]);
      EntriesSound(bytes, next, chunks, n + 1);
      var (rest, end) := EntriesFrom(bytes, next, chunks, n + 1).value;
      var es := [e] + rest;
      AllMatchCons(e, rest, chunks, n);
      AllMatchEncodable(es, chunks[n..]);
      EntriesBytesCons(es);
      assert es[1..] == rest;
      assert bytes[at..end] == bytes[at..next] + bytes[next..end];
    } else {
      NoEntries(chunks);
      assert chunks[n..] == [] && bytes[at..at] == [];
    }
  }

  lemma {:induction false} EntriesStep(bytes: seq<Byte>, at: nat, chunks: seq<ChunkEntry>, n: nat)
    requires at <= |bytes| && n <= |chunks| && EntriesFrom(bytes, at, chunks, n).Ok?
    ensures n == |chunks| ==> EntriesFrom(bytes, at, chunks, n) == Ok(([], at))
    ensures n < |chunks| ==>
              && OneEntry(bytes, at, chunks[n]).Ok?
              && var (e, next) := OneEntry(bytes, at, chunks[n]).value;
              && EntriesFrom(bytes, next, chunks, n + 1).Ok?
              && var (rest, end) := EntriesFrom(bytes, next, chunks, n + 1).value;
              EntriesFrom(bytes, at, chunks, n) == Ok(([e] + rest, end))
  {
    hide OneEntry;
  }

  lemma {:induction false} NoEntries(chunks: seq<ChunkEntry>)
    ensures AllMatch([], []) && AllEncodable([]) && EntriesBytes([]) == []
  {
  }

  lemma {:induction false} AllMatchCons(e: DenseEntry, rest: seq<DenseEntry>, chunks: seq<ChunkEntry>, n: nat)
    requires n < |chunks| && Matches(e, chunks[n]) && AllMatch(rest, chunks[n + 1..])
    ensures AllMatch([e] + rest, chunks[n..])
  {
    hide Matches;
    var es, cs := [e] + rest, chunks[n..];
    forall i | 0 <= i < |es| ensures Matches(es[i], cs[i]) {
      if i > 0 { assert Matches(rest[i - 1], chunks[n + 1..][i - 1]) && cs[i] == chunks[n + 1..][i - 1]; }
    }
  }

  lemma {:induction false} AllMatchTail(es: seq<DenseEntry>, chunks: seq<ChunkEntry>, n: nat)
    requires n < |chunks| && AllMatch(es, chunks[n..]) && AllEncodable(es)
    ensures es != [] && |es[0].offsets| <= U64_MAX && Matches(es[0], chunks[n]) && AllMatch(es[1..], chunks[n + 1..]) && AllEncodable(es[1..])
  {
    hide Matches;
    var cs := chunks[n..];
    assert Matches(es[0], cs[0]) && Encodable(es[0]);
    forall i | 0 <= i < |es| - 1 ensures Matches(es[1..][i], chunks[n + 1..][i]) {
      assert Matches(es[i + 1], cs[i + 1]) && cs[i + 1] == chunks[n + 1..][i];
    }
  }

  lemma {:induction false} EntriesComplete(bytes: seq<Byte>, at: nat, chunks: seq<ChunkEntry>, n: nat, es: seq<DenseEntry>)
    requires at <= |bytes| && n <= |chunks| && AllMatch(es, chunks[n..]) && AllEncodable(es)
    requires bytes[at..] == EntriesBytes(es)
    ensures EntriesFrom(bytes, at, chunks, n) == Ok((es, |bytes|))
    decreases |chunks| - n
  {
    hide *;
    if n < |chunks| {
      AllMatchTail(es, chunks, n);
      EntriesBytesCons(es);
      OneEntryComplete(bytes, at, chunks[n], es[0], EntriesBytes(es[1..]));
      SplitAt(bytes, at, EntryBytes(es[0]), EntriesBytes(es[1..]));
      EntriesComplete(bytes, at + |EntryBytes(es[0])|, chunks, n + 1, es[1..]);
      assert es == [es[0]] + es[1..];
      EntriesCons(bytes, at, chunks, n);
    } else {
      EntriesEnd(bytes, at, chunks, es);
    }
  }

  lemma {:induction false} EntriesCons(bytes: seq<Byte>, at: nat, chunks: seq<ChunkEntry>, n: nat)
    requires at <= |bytes| && n < |chunks| && OneEntry(bytes, at, chunks[n]).Ok?
    requires EntriesFrom(bytes, OneEntry(bytes, at, chunks[n]).value.1, chunks, n + 1).Ok?
    ensures var (e, next) := OneEntry(bytes, at, chunks[n]).value; var (rest, end) := EntriesFrom(bytes, next, chunks, n + 1).value;
            EntriesFrom(bytes, at, chunks, n) == Ok(([e] + rest, end))
  {
    hide OneEntry;
  }

  lemma {:induction false} EntriesEnd(bytes: seq<Byte>, at: nat, chunks: seq<ChunkEntry>, es: seq<DenseEntry>)
    requires at <= |bytes| && AllMatch(es, chunks[|chunks|..]) && AllEncodable(es) && bytes[at..] == EntriesBytes(es)
    ensures es == [] && at == |bytes| && EntriesFrom(bytes, at, chunks, |chunks|) == Ok((es, |bytes|))
  {
  }

  /** The whole block: count, entries, nothing left over. */
  function DecodeSpec(bytes: seq<Byte>, chunks: seq<ChunkEntry>): Result<seq<DenseEntry>> {
    match Parse(bytes, 0)
    case None => Err
    case Some((count, at)) =>
      if count != |chunks| then Err
      else
        var (es, end) :- EntriesFrom(bytes, at, chunks, 0);
        if end == |bytes| then Ok(es) else Err
  }

  /** A block decodes to an index exactly when it is the encoding of one that fits the chunks. */
  lemma {:induction false} DecodeIffEncodedDense(bytes: seq<Byte>, chunks: seq<ChunkEntry>, es: seq<DenseEntry>)
    requires |chunks| <= U64_MAX
    ensures DecodeSpec(bytes, chunks) == Ok(es)
            <==> AllMatch(es, chunks) && AllEncodable(es) && bytes == IndexBytes(es)
  {
    hide Write;
    hide Parse;
    hide EntriesFrom;
    hide EntriesBytes;
    assert chunks[0..] == chunks;
    if DecodeSpec(bytes, chunks) == Ok(es) {
      var (count, at) := Parse(bytes, 0).value;
      ParseIffWritten(bytes, 0, count, at);
      EntriesSound(bytes, at, chunks, 0);
      assert bytes == bytes[0..at] + bytes[at..|bytes|];
    }
    if AllMatch(es, chunks) && AllEncodable(es) && bytes == IndexBytes(es) {
      var w := Write(|es|);
      assert bytes[0..] == w + EntriesBytes(es);
      SplitAt(bytes, 0, w, EntriesBytes(es));
      ParseWritten(bytes, 0, |es|);
      EntriesComplete(bytes, |w|, chunks, 0, es);
    }
  }

  // ----- allocation accounting -----

  const ENTRY_SIZE: nat := 32
  const OFFSET_SIZE: nat := 8

  /** Bytes requested for the entry vector and the first `n` offset vectors. */
  function Allocation(chunks: seq<ChunkEntry>, n: nat): nat
    requires n <= |chunks|
  {
    if n == 0 then ENTRY_SIZE * |chunks| else Allocation(chunks, n - 1) + OFFSET_SIZE * chunks[n - 1].lineCount
  }

  lemma {:induction false} AllocationGrows(chunks: seq<ChunkEntry>, i: nat, j: nat)
    requires i <= j <= |chunks|
    ensures Allocation(chunks, i) <= Allocation(chunks, j)
    decreases j - i
  {
    if i < j { AllocationGrows(chunks, i, j - 1); }
  }

  /** The prediction made from the chunk table alone. */
  method RequestedAllocationForChunks(chunks: seq<ChunkEntry>) returns (r: Result<U64>)
    ensures r.Ok? <==> Allocation(chunks, |chunks|) <= U64_MAX
    ensures r.Ok? ==> r.value == Allocation(chunks, |chunks|)
  {
    AllocationGrows(chunks, 0, |chunks|);
    if ENTRY_SIZE * |chunks| > U64_MAX { return Err; }
    var requested: U64 := ENTRY_SIZE * |chunks|;
    for i := 0 to |chunks|
      invariant requested == Allocation(chunks, i)
    {
      AllocationGrows(chunks, i + 1, |chunks|);
      if requested + OFFSET_SIZE * chunks[i].lineCount > U64_MAX { return Err; }
      requested := requested + OFFSET_SIZE * chunks[i].lineCount;
    }
    return Ok(requested);
  }

  method ReadOffsets(bytes: seq<Byte>, start: nat, count: nat, limit: nat) returns (r: Result<(seq<U64>, nat)>)
    requires start <= |bytes|
    ensures r == Offsets(bytes, start, count, None, limit)
  {
    hide Parse;
    var cursor, previous: U64 := start, 0;
    var offsets: seq<U64> := [];
    ghost var all := Offsets(bytes, start, count, None, limit);
    assert all.Ok? ==> offsets + all.value.0 == all.value.0;
    for index := 0 to count
      invariant start <= cursor <= |bytes| && |offsets| == index
      invariant all
                == match Offsets(bytes, cursor, count - index, if index == 0 then None else Some(previous), limit)
                   case Err => Err
                   case Ok((rest, end)) => Ok((offsets + rest, end))
    {
      var read := ReadDense(bytes, cursor);
      if read.None? { return Err; }
      var (delta, next) := read.value;
      var offset := if index == 0 then delta else previous + delta;
      if offset > U64_MAX { return Err; }
      if index > 0 && offset <= previous { return Err; }
      if offset >= limit { return Err; }
      ghost var tail := Offsets(bytes, next, count - index - 1, Some(offset), limit);
      assert tail.Ok? ==> offsets + ([offset] + tail.value.0) == (offsets + [offset]) + tail.value.0;
      cursor, previous := next, offset;
      offsets := offsets + [offset];
    }
    assert offsets + [] == offsets;
    return Ok((offsets, cursor));
  }

  /** The early count checks only reject what cannot decode. */
  lemma {:induction false} TooFewBytes(bytes: seq<Byte>, at: nat, count: nat, previous: Option<U64>, limit: nat)
    requires at <= |bytes| && count > |bytes| - at
    ensures Offsets(bytes, at, count, previous, limit).Err?
  {
    if Offsets(bytes, at, count, previous, limit).Ok? {
      OffsetsSound(bytes, at, count, previous, limit);
    }
  }

  method DecodeEntry(bytes: seq<Byte>, start: nat, c: ChunkEntry) returns (r: Result<(DenseEntry, nat)>)
    requires start <= |bytes|
    ensures r == OneEntry(bytes, start, c)
  {
    hide Parse;
    hide Offsets;
    var id := ReadDense(bytes, start);
    if id.None? { return Err; }
    if id.value.0 != c.chunkId { return Err; }
    var count := ReadDense(bytes, id.value.1);
    if count.None? { return Err; }
    if count.value.0 != c.lineCount { return Err; }
    if count.value.0 > c.uncompressedSize { return Err; }
    var cursor := count.value.1;
    if count.value.0 > |bytes| - cursor {
      TooFewBytes(bytes, cursor, count.value.0, None, c.uncompressedSize);
      return Err;
    }
    var offsets := ReadOffsets(bytes, cursor, count.value.0, c.uncompressedSize);
    if offsets.Err? { return Err; }
    return Ok((DenseEntry(id.value.0, offsets.value.0), offsets.value.1));
  }

  lemma {:induction false} TooFewEntryBytes(bytes: seq<Byte>, at: nat, chunks: seq<ChunkEntry>)
    requires at <= |bytes| && |chunks| > (|bytes| - at) / 2
    ensures EntriesFrom(bytes, at, chunks, 0).Err?
  {
    if EntriesFrom(bytes, at, chunks, 0).Ok? { EntriesSound(bytes, at, chunks, 0); }
  }

  /** Decoding checks the running allocation too, and so succeeds exactly within the predicted total. */
  method DecodeForChunks(bytes: seq<Byte>, chunks: seq<ChunkEntry>, maxAllocation: U64) returns (r: Result<seq<DenseEntry>>)
    ensures r == if Allocation(chunks, |chunks|) <= maxAllocation then DecodeSpec(bytes, chunks) else Err
  {
    hide Parse;
    hide OneEntry;
    AllocationGrows(chunks, 0, |chunks|);
    var count := ReadDense(bytes, 0);
    if count.None? { return Err; }
    var cursor := count.value.1;
    ghost var first := cursor;
    if count.value.0 != |chunks| { return Err; }
    if count.value.0 > (|bytes| - cursor) / 2 {
      TooFewEntryBytes(bytes, cursor, chunks);
      return Err;
    }
    var requested := ENTRY_SIZE * |chunks|;
    if requested > maxAllocation { return Err; }
    var es: seq<DenseEntry> := [];
    ghost var all := EntriesFrom(bytes, first, chunks, 0);
    assert all.Ok? ==> es + all.value.0 == all.value.0;
    for i := 0 to |chunks|
      invariant first <= cursor <= |bytes| && |es| == i
      invariant requested == Allocation(chunks, i) <= maxAllocation
      invariant all
                == match EntriesFrom(bytes, cursor, chunks, i)
                   case Err => Err
                   case Ok((rest, end)) => Ok((es + rest, end))
    {
      AllocationGrows(chunks, i + 1, |chunks|);
      var entry := DecodeEntry(bytes, cursor, chunks[i]);
      if entry.Err? { return Err; }
      requested := requested + OFFSET_SIZE * chunks[i].lineCount;
      if requested > maxAllocation { return Err; }
      ghost var tail := EntriesFrom(bytes, entry.value.1, chunks, i + 1);
      assert tail.Ok? ==> es + ([entry.value.0] + tail.value.0) == (es + [entry.value.0]) + tail.value.0;
      es := es + [entry.value.0];
      cursor := entry.value.1;
    }
    assert es + [] == es;
    if cursor != |bytes| { return Err; }
    return Ok(es);
  }

  // ----- building from the original text -----

  /** The index the text itself determines for one chunk. */
  function DenseOf(t: seq<Byte>, c: ChunkEntry): DenseEntry
    requires c.LogicalEnd() <= |t| <= U64_MAX
  {
    var decoded := t[c.logicalOffset..c.LogicalEnd()];
    DenseEntry(c.chunkId, LocalStarts(decoded, c.flags % 2 == 1, |decoded|))
  }

  method FromOriginalBytes(input: seq<Byte>, chunks: seq<ChunkEntry>) returns (r: Result<seq<DenseEntry>>)
    requires |input| <= U64_MAX
    ensures r.Ok? <==> forall i :: 0 <= i < |chunks| ==>
                         chunks[i].LogicalEnd() <= |input| && |DenseOf(input, chunks[i]).offsets| == chunks[i].lineCount
    ensures r.Ok? ==> |r.value| == |chunks| && forall i :: 0 <= i < |chunks| ==> r.value[i] == DenseOf(input, chunks[i])
  {
    var es: seq<DenseEntry> := [];
    for i := 0 to |chunks|
      invariant |es| == i
      invariant forall j :: 0 <= j < i ==>
                  && chunks[j].LogicalEnd() <= |input| && |DenseOf(input, chunks[j]).offsets| == chunks[j].lineCount
                  && es[j] == DenseOf(input, chunks[j])
    {
      var c := chunks[i];
      if c.LogicalEnd() > |input| { return Err; }
      var starts := LocalLineStarts(input[c.logicalOffset..c.LogicalEnd()], c.flags % 2 == 1);
      if |starts| != c.lineCount { return Err; }
      es := es + [DenseEntry(c.chunkId, starts)];
    }
    return Ok(es);
  }
}
