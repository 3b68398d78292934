/** Reading one line, with the dense index or without it, across any number of chunks. */
module LineReads {
  import opened Bytes
  import opened Lines
  import opened ChunkTable
  import opened ChunkCache
  import opened Chunker
  import opened DenseIndex

  /** The table carries the line structure of its text. */
  ghost predicate Described(c: Container)
    requires c.Valid()
  {
    forall i :: 0 <= i < |c.entries| ==> DescribedAt(c, i)
  }

  predicate DescribedAt(c: Container, i: nat)
    requires i < |c.entries|
  {
    var e := c.entries[i];
    Describes(c.text, e.logicalOffset, e.LogicalEnd(), e.firstLine, e.lineCount, e.flags)
  }

  predicate Continues(e: ChunkEntry) { e.flags % 2 == 1 }

  function LineCount(t: seq<Byte>): nat { |Starts(t, 0, |t|)| }

  // ----- finding the chunk a line starts in -----

  /** First line and line count add up to the line starts before the chunk's end. */
  lemma {:induction false} LinesEndIs(c: Container, i: nat)
    requires c.Valid() && Described(c) && i < |c.entries|
    ensures c.entries[i].LinesEnd() == |Starts(c.text, 0, c.entries[i].LogicalEnd())| <= LineCount(c.text) <= U64_MAX
    ensures c.entries[i].firstLine == |Starts(c.text, 0, c.entries[i].logicalOffset)|
    ensures c.entries[i].LogicalEnd() <= |c.text|
  {
    hide Starts, Tiles;
    assert DescribedAt(c, i);
    var e := c.entries[i];
    StartsSplit(c.text, 0, e.logicalOffset, e.LogicalEnd());
    StartsSplit(c.text, 0, e.LogicalEnd(), |c.text|);
    TextFits(c);
  }

  lemma {:induction false} LineEndsSorted(c: Container)
    requires c.Valid() && Described(c)
    ensures EndsSorted(c.entries, CheckedLinesEnd)
  {
    hide Starts, Described;
    forall i | 0 <= i < |c.entries| ensures CheckedLinesEnd(c.entries[i]).Ok? { LinesEndIs(c, i); }
    forall i, j | 0 <= i < j < |c.entries| ensures CheckedLinesEnd(c.entries[i]).value <= CheckedLinesEnd(c.entries[j]).value {
      LinesEndIs(c, i);
      LinesEndIs(c, j);
      TilesOrdered(c.entries, |c.text|, i, j);
      StartsSplit(c.text, 0, c.entries[i].LogicalEnd(), c.entries[j].LogicalEnd());
    }
  }

  /** `line_start_chunk_index`: the chunk in which the line starts, or an error past the last line. */
  method LineStartChunkIndex(c: Container, line: U64) returns (r: Result<nat>)
    requires c.Valid() && Described(c)
    ensures r.Ok? <==> line < LineCount(c.text)
    ensures r.Ok? ==> r.value < |c.entries| && c.entries[r.value].firstLine <= line < c.entries[r.value].LinesEnd()
  {
    hide Starts, Described;
    LineEndsSorted(c);
    var low := PartitionByEnd(c.entries, line, CheckedLinesEnd);
    LinePartition(c, line, low.value);
    if low.value >= |c.entries| { return Err; }
    var e := c.entries[low.value];
    var end := CheckedLinesEnd(e);
    if end.Err? { return Err; }
    if e.firstLine <= line < end.value { return Ok(low.value); }
    return Err;
  }

  lemma {:induction false} LinePartition(c: Container, line: nat, at: nat)
    requires c.Valid() && Described(c) && IsPartition(c.entries, CheckedLinesEnd, line, at)
    ensures at < |c.entries| <==> line < LineCount(c.text)
    ensures at < |c.entries| ==> c.entries[at].firstLine <= line < c.entries[at].LinesEnd() <= U64_MAX
  {
    hide Starts, Described;
    if at < |c.entries| {
      LinesEndIs(c, at);
      assert CheckedLinesEnd(c.entries[at]).value > line;
      if at > 0 {
        LinesEndIs(c, at - 1);
        assert CheckedLinesEnd(c.entries[at - 1]).value <= line;
        assert ChunkInPlace(c.entries, at);
      } else {
        assert ChunkInPlace(c.entries, 0);
        NoStartsAtZero(c.text);
      }
    } else if |c.entries| > 0 {
      LinesEndIs(c, |c.entries| - 1);
      assert CheckedLinesEnd(c.entries[|c.entries| - 1]).value <= line;
    } else {
      NoStartsAtZero(c.text);
    }
  }

  lemma {:induction false} NoStartsAtZero(t: seq<Byte>)
    ensures Starts(t, 0, 0) == []
  {
  }

  // ----- where the line starts inside its chunk -----

  /** The local start of a line, shifted by its chunk, is where the line starts in the text. */
  lemma {:induction false} LineStartIs(c: Container, i: nat, line: nat)
    requires c.Valid() && Described(c) && i < |c.entries| && c.entries[i].firstLine <= line < c.entries[i].LinesEnd()
    requires c.entries[i].LogicalEnd() <= |c.text|
    ensures var e := c.entries[i]; var local := LocalStarts(ChunkText(c, e), Continues(e), e.uncompressedSize);
            && line - e.firstLine < |local| == e.lineCount
            && line < |LinesFrom(c.text, 0)|
            && local[line - e.firstLine] < e.uncompressedSize
            && LinesFrom(c.text, 0)[line].0 == e.logicalOffset + local[line - e.firstLine]
            && IsLine(c.text, LinesFrom(c.text, 0)[line])
  {
    hide Starts, LocalStarts, LinesFrom, Tiles, IsLine;
    var e := c.entries[i];
    assert DescribedAt(c, i);
    var t := c.text;
    LocalStartsShift(t, e.logicalOffset, e.LogicalEnd(), e.uncompressedSize);
    StartsSplit(t, 0, e.logicalOffset, |t|);
    StartsSplit(t, e.logicalOffset, e.LogicalEnd(), |t|);
    LineStartsAgree(t, 0) by { ZeroStarts(t); }
    LinesTile(t, 0) by { ZeroStarts(t); }
    var k := line - e.firstLine;
    var a, b, d := Starts(t, 0, e.logicalOffset), Starts(t, e.logicalOffset, e.LogicalEnd()), Starts(t, e.LogicalEnd(), |t|);
    assert Starts(t, 0, |t|) == a + (b + d);
    assert (a + (b + d))[line] == b[k];
  }

  /** A dense index that holds each chunk's own line starts. */
  ghost predicate DenseMatches(c: Container, dense: seq<DenseEntry>)
    requires c.Valid()
  {
    |dense| >= |c.entries| && forall i :: 0 <= i < |c.entries| ==> DenseMatchesAt(c, dense, i)
  }

  ghost predicate DenseMatchesAt(c: Container, dense: seq<DenseEntry>, i: nat)
    requires i < |c.entries| && i < |dense|
  {
    c.entries[i].LogicalEnd() <= |c.text|
    && dense[i].offsets == LocalStarts(ChunkText(c, c.entries[i]), Continues(c.entries[i]), c.entries[i].uncompressedSize)
  }

  // ----- reading the line -----

  /** Bytes up to and including the next LF. */
  method AppendUntilLf(decoded: seq<Byte>, start: nat, output: seq<Byte>) returns (r: seq<Byte>, found: bool)
    requires start <= |decoded|
    ensures !found ==> r == output + decoded[start..] && forall i :: start <= i < |decoded| ==> decoded[i] != LF
    ensures found ==> start < |decoded| && r == output + decoded[start..LineEnd(decoded, start)] && decoded[LineEnd(decoded, start) - 1] == LF
  {
    r := output;
    for i := start to |decoded|
      invariant r == output + decoded[start..i]
      invariant forall k :: start <= k < i ==> decoded[k] != LF
    {
      r := r + [decoded[i]];
      assert decoded[start..i + 1] == decoded[start..i] + [decoded[i]];
      if decoded[i] == LF {
        assert LineEnd(decoded, start) == i + 1 by { assert decoded[LineEnd(decoded, start) - 1] == LF || LineEnd(decoded, start) == |decoded|; }
        return r, true;
      }
    }
    found := false;
  }

  /** Within one chunk the line end of the chunk text is that of the text, where it ends in LF. */
  lemma {:induction false} ChunkLineEnd(t: seq<Byte>, lo: nat, hi: nat, p: nat, s: nat)
    requires lo <= p < hi <= |t| && s <= p && NoLf(t, s, p) && t[lo..hi][LineEnd(t[lo..hi], p - lo) - 1] == LF
    ensures LineEnd(t, s) == lo + LineEnd(t[lo..hi], p - lo)
    ensures t[s..p] + t[lo..hi][p - lo..LineEnd(t[lo..hi], p - lo)] == t[s..LineEnd(t, s)]
  {
    var u := t[lo..hi];
    var e := LineEnd(u, p - lo);
    forall i | s <= i < lo + e - 1 ensures t[i] != LF { if i >= p { assert u[i - lo] == t[i]; } }
    assert t[lo + e - 1] == u[e - 1] == LF;
    var f := LineEnd(t, s);
    assert f == |t| || t[f - 1] == LF;
    assert u[p - lo..e] == t[p..lo + e] by { SliceOfSlice(t, lo, hi, p, lo + e); }
    assert t[s..p] + t[p..lo + e] == t[s..lo + e];
  }

  lemma {:induction false} ChunkWithoutLf(t: seq<Byte>, lo: nat, hi: nat, p: nat, s: nat)
    requires lo <= p <= hi <= |t| && s <= p && NoLf(t, s, p)
    requires forall i :: p - lo <= i < hi - lo ==> t[lo..hi][i] != LF
    ensures NoLf(t, s, hi) && t[s..p] + t[lo..hi][p - lo..] == t[s..hi]
    ensures hi == |t| && s < hi ==> LineEnd(t, s) == hi
  {
    var u := t[lo..hi];
    forall i | s <= i < hi ensures t[i] != LF { if i >= p { assert u[i - lo] == t[i]; } }
    assert u[p - lo..] == t[p..hi] by { SliceOfSlice(t, lo, hi, p, hi); assert u[p - lo..] == u[p - lo..hi - lo]; }
    assert t[s..p] + t[p..hi] == t[s..hi];
  }

  /** `read_line_from_entries`: exactly the bytes of the line, whether or not a dense index is used. */
  method ReadLine(c: Container, dense: Option<seq<DenseEntry>>, line: U64) returns (r: Result<seq<Byte>>)
    requires c.Valid() && Described(c) && (dense.Some? ==> DenseMatches(c, dense.value))
    ensures r.Ok? <==> line < |LinesFrom(c.text, 0)|
    ensures r.Ok? ==> LinesFrom(c.text, 0)[line].0 <= LinesFrom(c.text, 0)[line].1 <= |c.text|
                      && r.value == LineBytes(c.text, LinesFrom(c.text, 0)[line])
  {
    hide Described, LinesFrom, Starts, LocalStarts, Tiles, LineEnd;
    LineCountIs(c.text);
    var at := LineStartChunkIndex(c, line);
    if at.Err? { return Err; }
    var e := c.entries[at.value];
    LinesEndIs(c, at.value);
    LineStartIs(c, at.value, line);
    var decoded := ChunkText(c, e);
    var k := line - e.firstLine;
    var start: nat;
    if dense.Some? {
      assert DenseMatchesAt(c, dense.value, at.value);
      if at.value >= |dense.value| || k >= |dense.value[at.value].offsets| { return Err; }
      start := dense.value[at.value].offsets[k];
    } else {
      var starts := LocalLineStarts(decoded, Continues(e));
      if k >= |starts| { return Err; }
      start := starts[k];
    }
    ghost var l := LinesFrom(c.text, 0)[line];
    var output := ReadFrom(c, at.value, start);
    LineSpanIs(c.text, l);
    return Ok(output);
  }

  lemma {:induction false} LineCountIs(t: seq<Byte>)
    ensures |LinesFrom(t, 0)| == LineCount(t)
  {
    LineStartsAgree(t, 0);
  }

  lemma {:induction false} LineSpanIs(t: seq<Byte>, l: Span)
    requires IsLine(t, l)
    ensures l.0 < l.1 <= |t| && l.1 == LineEnd(t, l.0)
  {
  }

  /** The line that started at `s`, read up to `end` without meeting its LF. */
  ghost predicate Unfinished(t: seq<Byte>, s: nat, end: nat, output: seq<Byte>) {
    s <= end <= |t| && s < |t| && NoLf(t, s, end) && output == t[s..end] && (end == |t| ==> LineEnd(t, s) == end)
  }

  /** One chunk's part of the line. */
  method AppendChunk(c: Container, e: ChunkEntry, start: nat, output: seq<Byte>, ghost s: nat) returns (r: seq<Byte>, found: bool)
    requires e.LogicalEnd() <= |c.text| && start < e.uncompressedSize
    requires Unfinished(c.text, s, e.logicalOffset + start, output)
    ensures found ==> s < |c.text| && r == c.text[s..LineEnd(c.text, s)]
    ensures !found ==> Unfinished(c.text, s, e.LogicalEnd(), r)
  {
    hide LineEnd;
    var decoded := ChunkText(c, e);
    ghost var p := e.logicalOffset + start;
    assert e.LogicalEnd() == e.logicalOffset + e.uncompressedSize && output == c.text[s..p] && NoLf(c.text, s, p);
    hide NoLf, Unfinished;
    r, found := AppendUntilLf(decoded, start, output);
    if found {
      ChunkLineEnd(c.text, e.logicalOffset, e.LogicalEnd(), p, s);
    } else {
      ChunkWithoutLf(c.text, e.logicalOffset, e.LogicalEnd(), p, s);
      StillUnfinished(c.text, s, e.LogicalEnd(), r);
    }
  }

  lemma {:induction false} StillUnfinished(t: seq<Byte>, s: nat, end: nat, output: seq<Byte>)
    requires s < end <= |t| && NoLf(t, s, end) && output == t[s..end] && (end == |t| ==> LineEnd(t, s) == end)
    ensures Unfinished(t, s, end, output)
  {
  }

  lemma {:induction false} Started(t: seq<Byte>, s: nat)
    requires s < |t|
    ensures Unfinished(t, s, s, [])
  {
  }

  lemma {:induction false} Finished(t: seq<Byte>, s: nat, output: seq<Byte>)
    requires Unfinished(t, s, |t|, output)
    ensures s < |t| && output == t[s..LineEnd(t, s)]
  {
  }

  /** From a line start inside a chunk, through as many chunks as it takes. */
  method ReadFrom(c: Container, first: nat, start: nat) returns (output: seq<Byte>)
    requires c.Valid() && first < |c.entries| && start < c.entries[first].uncompressedSize
    ensures var s := c.entries[first].logicalOffset + start;
            s < |c.text| && output == c.text[s..LineEnd(c.text, s)]
  {
    hide Tiles, LineEnd, Unfinished;
    NextChunk(c, first);
    ghost var s := c.entries[first].logicalOffset + start;
    Started(c.text, s);
    var found;
    output, found := AppendChunk(c, c.entries[first], start, [], s);
    if found { return; }
    var current := first + 1;
    while current < |c.entries|
      invariant first < current <= |c.entries| && Unfinished(c.text, s, EndBefore(c.entries, current), output)
      decreases |c.entries| - current
    {
      NextChunk(c, current);
      output, found := AppendChunk(c, c.entries[current], 0, output, s);
      if found { return; }
      current := current + 1;
    }
    LastChunk(c);
    Finished(c.text, s, output);
  }

  lemma {:induction false} NextChunk(c: Container, i: nat)
    requires c.Valid() && i < |c.entries|
    ensures c.entries[i].logicalOffset == EndBefore(c.entries, i) < c.entries[i].LogicalEnd() == EndBefore(c.entries, i + 1) <= |c.text|
  {
    TilesBelow(c.entries, |c.text|, i);
    assert ChunkInPlace(c.entries, i);
  }

  lemma {:induction false} LastChunk(c: Container)
    requires c.Valid()
    ensures EndBefore(c.entries, |c.entries|) == |c.text|
  {
  }
}
