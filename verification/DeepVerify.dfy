/** Streaming deep verification of the line structure and the document index, against the concatenated text. */
module DeepVerify {
  import opened Bytes
  import opened Lines
  import opened ChunkTable
  import opened ChunkCache
  import opened Chunker
  import opened DenseIndex
  import opened LineReads
  import opened LineIndex
  import opened DocumentHash
  import Utf8

  class StreamingTextAnalysis {
    var lineStartsSeen: U64
    var lfCount: U64
    var crlfCount: U64
    var previousByte: Option<Byte>

    /** The analysis has seen exactly the first `n` bytes of the text. */
    ghost predicate Tracks(t: seq<Byte>, n: nat)
      reads this
    {
      && n <= |t|
      && lineStartsSeen == |Starts(t, 0, n)|
      && Newlines(t, n)
    }

    ghost predicate Newlines(t: seq<Byte>, n: nat)
      reads this
    {
      && lfCount + crlfCount <= n <= |t|
      && (lfCount > 0 <==> HasBareLf(t, n))
      && (crlfCount > 0 <==> HasCrlf(t, n))
      && previousByte == if n == 0 then None else Some(t[n - 1])
    }

    constructor ()
      ensures forall t :: Tracks(t, 0)
    {
      lineStartsSeen, lfCount, crlfCount, previousByte := 0, 0, 0, None;
    }

    /** The chunk `[off, end)`, given with its true continuation flag. */
    method Update(decoded: seq<Byte>, continues: bool, ghost t: seq<Byte>, ghost off: nat, ghost end: nat) returns (ok: bool)
      requires |t| <= U64_MAX && off <= end <= |t| && decoded == t[off..end] && Tracks(t, off)
      requires continues == (off > 0 && t[off - 1] != LF)
      modifies this
      ensures ok && Tracks(t, end)
    {
      hide Starts, HasBareLf, HasCrlf;
      var starts := LocalLineStarts(decoded, continues);
      LocalStartsShift(t, off, end, end - off);
      StartsSplit(t, 0, off, end);
      if lineStartsSeen + |starts| > U64_MAX { return false; }
      lineStartsSeen := lineStartsSeen + |starts|;
      ok := CountNewlines(decoded, t, off, end);
    }

    method CountNewlines(decoded: seq<Byte>, ghost t: seq<Byte>, ghost off: nat, ghost end: nat) returns (ok: bool)
      requires |t| <= U64_MAX && off <= end <= |t| && decoded == t[off..end] && Newlines(t, off)
      modifies this`lfCount, this`crlfCount, this`previousByte
      ensures ok && Newlines(t, end)
    {
      hide HasBareLf, HasCrlf;
      for i := 0 to |decoded|
        invariant Newlines(t, off + i)
      {
        HasStep(t, off + i);
        if decoded[i] == LF {
          if previousByte == Some(CR) {
            if crlfCount + 1 > U64_MAX { return false; }
            crlfCount := crlfCount + 1;
          } else {
            if lfCount + 1 > U64_MAX { return false; }
            lfCount := lfCount + 1;
          }
        }
        previousByte := Some(decoded[i]);
      }
      return true;
    }

    function NewlineMode(): NewlineMode
      reads this
    {
      ModeFromFlags(lfCount > 0, crlfCount > 0)
    }
  }

  /** What deep verification establishes about the line structure. */
  ghost predicate DeepOk(c: Container, dense: Option<seq<DenseEntry>>, lineCount: nat, mode: NewlineMode)
    requires c.Valid()
  {
    && Described(c)
    && ChunksValid(c)
    && (dense.Some? ==> DenseMatches(c, dense.value))
    && lineCount == LineCount(c.text)
    && IsNewlineMode(c.text, mode)
  }

  /** One chunk passes. */
  ghost predicate ChunkOk(c: Container, dense: Option<seq<DenseEntry>>, i: nat)
    requires c.Valid() && i < |c.entries|
  {
    DescribedAt(c, i) && ChunkValid(c, i) && (dense.Some? ==> i < |dense.value| && DenseMatchesAt(c, dense.value, i))
  }

  ghost predicate AllOk(c: Container, dense: Option<seq<DenseEntry>>)
    requires c.Valid()
  {
    Described(c) && ChunksValid(c) && (dense.Some? ==> DenseMatches(c, dense.value))
  }

  lemma {:induction false} ChunkNotOk(c: Container, dense: Option<seq<DenseEntry>>, i: nat)
    requires c.Valid() && i < |c.entries| && !ChunkOk(c, dense, i)
    ensures !AllOk(c, dense)
  {
    hide DescribedAt, ChunkValid, DenseMatchesAt;
  }

  lemma {:induction false} AllChunksOk(c: Container, dense: Option<seq<DenseEntry>>)
    requires c.Valid() && forall i :: 0 <= i < |c.entries| ==> ChunkOk(c, dense, i)
    ensures AllOk(c, dense)
  {
    hide DescribedAt, ChunkValid, DenseMatchesAt;
    forall i | 0 <= i < |c.entries|
      ensures DescribedAt(c, i) && ChunkValid(c, i) && (dense.Some? ==> i < |dense.value| && DenseMatchesAt(c, dense.value, i))
    {
      assert ChunkOk(c, dense, i);
    }
    if dense.Some? && |c.entries| > 0 { assert ChunkOk(c, dense, |c.entries| - 1); }
  }

  /** What the three table checks of a chunk compare with. */
  lemma {:induction false} DescribedIs(c: Container, i: nat)
    requires c.Valid() && i < |c.entries| && c.entries[i].LogicalEnd() <= |c.text|
    requires c.entries[i].logicalOffset < c.entries[i].LogicalEnd()
    ensures var e, t := c.entries[i], c.text;
            var flags := if e.logicalOffset > 0 && t[e.logicalOffset - 1] != LF then STARTS_WITH_LINE_CONTINUATION else 0;
            && (DescribedAt(c, i) ==> e.flags == flags && e.firstLine == |Starts(t, 0, e.logicalOffset)|)
            && (e.flags == flags && e.firstLine == |Starts(t, 0, e.logicalOffset)| ==>
                  && (DescribedAt(c, i) <==> e.lineCount == |LocalStarts(ChunkText(c, e), Continues(e), |ChunkText(c, e)|)|)
                  && Continues(e) == (e.logicalOffset > 0 && t[e.logicalOffset - 1] != LF))
  {
    hide Starts, LocalStarts, Tiles;
    var e := c.entries[i];
    LocalStartsShift(c.text, e.logicalOffset, e.LogicalEnd(), e.uncompressedSize);
  }

  lemma {:induction false} TracksOpen(text: StreamingTextAnalysis, t: seq<Byte>, n: nat)
    requires text.Tracks(t, n)
    ensures n <= |t| && text.lineStartsSeen == |Starts(t, 0, n)|
    ensures text.previousByte == if n == 0 then None else Some(t[n - 1])
  {
  }

  lemma {:induction false} ChunkOkIs(c: Container, dense: Option<seq<DenseEntry>>, i: nat)
    requires c.Valid() && i < |c.entries| && c.entries[i].LogicalEnd() <= |c.text|
    ensures var e := c.entries[i];
            ChunkOk(c, dense, i) <==>
              && DescribedAt(c, i)
              && Utf8.Valid(ChunkText(c, e))
              && (dense.Some? ==> i < |dense.value| && dense.value[i].offsets == LocalStarts(ChunkText(c, e), Continues(e), |ChunkText(c, e)|))
  {
    hide LocalStarts, Tiles, Starts;
  }

  /** The checks made on one decoded chunk, against the analysis of everything before it. */
  method VerifyChunk(c: Container, dense: Option<seq<DenseEntry>>, i: nat, text: StreamingTextAnalysis) returns (ok: bool, decoded: seq<Byte>)
    requires c.Valid() && i < |c.entries| && text.Tracks(c.text, EndBefore(c.entries, i))
    modifies text
    ensures ok == ChunkOk(c, dense, i)
    ensures ok ==> c.entries[i].LogicalEnd() <= |c.text| && decoded == ChunkText(c, c.entries[i]) && text.Tracks(c.text, EndBefore(c.entries, i + 1))
  {
    NextChunk(c, i);
    TextFits(c);
    ChunkOkIs(c, dense, i);
    DescribedIs(c, i);
    TracksOpen(text, c.text, EndBefore(c.entries, i));
    var e := c.entries[i];
    var expected := if e.logicalOffset > 0 && text.previousByte != Some(LF) then STARTS_WITH_LINE_CONTINUATION else 0;
    decoded := ChunkText(c, e);
    hide *;
    if e.flags != expected { return false, []; }
    if e.firstLine != text.lineStartsSeen { return false, []; }
    if !Utf8.Valid(decoded) { return false, []; }
    var starts := LocalLineStarts(decoded, Continues(e));
    if dense.Some? {
      if i >= |dense.value| { return false, []; }
      if dense.value[i].offsets != starts { return false, []; }
    }
    if e.lineCount != |starts| { return false, []; }
    ok := text.Update(decoded, Continues(e), c.text, e.logicalOffset, e.LogicalEnd());
  }

  /**
   * `verify_deep_entries`: one pass over the chunks feeds the text analysis, the checksum and the
   * document hasher. It passes exactly when the table's flags, first lines and line counts, the total
   * line count, the newline mode and the checksum are those of the text, and every document record,
   * where there is an index, agrees with the text.
   */
  method VerifyDeep<Digest(==, !new)>(c: Container, dense: Option<seq<DenseEntry>>, lineCount: U64, mode: NewlineMode, expected: Digest,
                                      documents: Option<seq<Document<Digest>>>, hash: seq<Byte> -> Digest, idHash: seq<Byte> -> seq<Byte>)
    returns (ok: bool)
    requires c.Valid()
    ensures ok <==> && DeepOk(c, dense, lineCount, mode) && hash(c.text) == expected
                    && (documents.Some? ==> DocumentsOk(c, documents.value, lineCount, hash, idHash))
  {
    hide *;
    TextFits(c);
    var docs := if documents.Some? then documents.value else [];
    var text := new StreamingTextAnalysis();
    var hasher := new DocumentHasher(docs);
    assert text.Tracks(c.text, 0) && hasher.FedUpTo(c.text, 0);
    var fine, fed, decodedBytes := ScanChunks(c, dense, docs, text, hasher);
    DeepOkIs(c, dense, lineCount, mode);
    if !fine { return false; }
    TrackedText(text, c.text);
    if decodedBytes != |c.text| { return false; }
    if hash(fed) != expected { return false; }
    if text.lineStartsSeen != lineCount { return false; }
    if text.NewlineMode() != mode { return false; }
    if documents.None? { return true; }
    RecordedExactly(docs, hasher, c.text);
    ok := VerifyDocuments(c, docs, lineCount, hasher.results, hash, idHash);
  }

  /** The chunk loop: every chunk checked, and the whole text fed to each consumer in order. */
  method ScanChunks<D>(c: Container, dense: Option<seq<DenseEntry>>, docs: seq<Document<D>>, text: StreamingTextAnalysis, hasher: DocumentHasher)
    returns (ok: bool, fed: seq<Byte>, decodedBytes: U64)
    requires c.Valid() && text.Tracks(c.text, 0) && hasher.pending == PendingOf(docs, 0) && hasher.FedUpTo(c.text, 0)
    modifies text, hasher
    ensures ok <==> AllOk(c, dense)
    ensures ok ==> fed == c.text && decodedBytes == |c.text|
    ensures ok ==> text.Tracks(c.text, |c.text|) && hasher.pending == PendingOf(docs, 0) && hasher.FedUpTo(c.text, |c.text|)
  {
    hide *;
    TextFits(c);
    fed, decodedBytes := [], 0;
    TableStart(c);
    for i := 0 to |c.entries|
      invariant text.Tracks(c.text, EndBefore(c.entries, i))
      invariant hasher.pending == PendingOf(docs, 0) && hasher.FedUpTo(c.text, EndBefore(c.entries, i))
      invariant decodedBytes == EndBefore(c.entries, i) <= |c.text| && fed == c.text[..EndBefore(c.entries, i)]
      invariant forall k :: 0 <= k < i ==> ChunkOk(c, dense, k)
    {
      var fine, decoded := VerifyChunk(c, dense, i, text);
      if !fine { ChunkNotOk(c, dense, i); return false, fed, decodedBytes; }
      FedNext(c, i);
      fed := fed + decoded;
      FeedChunk(docs, hasher, c, i);
      if decodedBytes + |decoded| > U64_MAX { return false, fed, decodedBytes; }
      decodedBytes := decodedBytes + |decoded|;
    }
    TableEnd(c);
    AllChunksOk(c, dense);
    ok := true;
  }

  lemma {:induction false} FedNext(c: Container, i: nat)
    requires c.Valid() && i < |c.entries| && c.entries[i].LogicalEnd() <= |c.text|
    ensures EndBefore(c.entries, i) + |ChunkText(c, c.entries[i])| == EndBefore(c.entries, i + 1) <= |c.text| <= U64_MAX == 0xFFFF_FFFF_FFFF_FFFF
    ensures c.text[..EndBefore(c.entries, i)] + ChunkText(c, c.entries[i]) == c.text[..EndBefore(c.entries, i + 1)]
  {
    TextFits(c);
    NextChunk(c, i);
  }

  /** What the finished analysis says about the text. */
  lemma {:induction false} TrackedText(text: StreamingTextAnalysis, t: seq<Byte>)
    requires text.Tracks(t, |t|)
    ensures text.lineStartsSeen == LineCount(t)
    ensures forall mode :: IsNewlineMode(t, mode) <==> mode == text.NewlineMode()
  {
    hide Starts, HasBareLf, HasCrlf, IsNewlineMode;
    forall mode ensures IsNewlineMode(t, mode) <==> mode == text.NewlineMode() { FlagsDecideMode(t, mode); }
  }

  lemma {:induction false} DeepOkIs(c: Container, dense: Option<seq<DenseEntry>>, lineCount: nat, mode: NewlineMode)
    requires c.Valid()
    ensures DeepOk(c, dense, lineCount, mode) <==> AllOk(c, dense) && lineCount == LineCount(c.text) && IsNewlineMode(c.text, mode)
  {
    hide Described, ChunksValid, DenseMatches, LineCount, IsNewlineMode;
  }

  // ----- planned tables pass -----

  /** Table entries that record a plan. */
  ghost predicate Records(entries: seq<ChunkEntry>, plan: ChunkPlan) {
    |entries| == |plan.chunks| && forall i :: 0 <= i < |entries| ==> RecordsAt(entries, plan, i)
  }

  predicate RecordsAt(entries: seq<ChunkEntry>, plan: ChunkPlan, i: nat)
    requires i < |entries| && i < |plan.chunks|
  {
    var e, p := entries[i], plan.chunks[i];
    && e.chunkId == p.chunkId && e.logicalOffset == p.logicalOffset && e.uncompressedSize == p.uncompressedSize
    && e.firstLine == p.firstLine && e.lineCount == p.lineCount && e.flags == p.flags
  }

  /** Streaming the planned chunks reproduces everything planning computed from the whole input. */
  lemma {:induction false} PlannedTablePasses(t: seq<Byte>, options: ChunkerOptions, plan: ChunkPlan, entries: seq<ChunkEntry>)
    requires PlanOf(t, options, plan) && Records(entries, plan) && |t| <= U64_MAX
    ensures Tiles(entries, |t|)
    ensures DeepOk(Container(entries, t), None, plan.lineCount, plan.newlineMode)
  {
    hide Starts, IsNewlineMode, Utf8.ValidFrom, SafeCut;
    forall i | 0 <= i < |entries|
      ensures ChunkInPlace(entries, i) && RecordsAt(entries, plan, i) && PlannedAt(t, options, plan.chunks, i)
    {
      assert RecordsAt(entries, plan, i) && PlannedAt(t, options, plan.chunks, i);
      if i > 0 { assert RecordsAt(entries, plan, i - 1); }
    }
    if |entries| > 0 { assert RecordsAt(entries, plan, |entries| - 1); assert PlannedAt(t, options, plan.chunks, 0); }
    assert Tiles(entries, |t|);
    var c := Container(entries, t);
    forall i | 0 <= i < |entries| ensures DescribedAt(c, i) && ChunkValid(c, i) {
      assert RecordsAt(entries, plan, i) && PlannedAt(t, options, plan.chunks, i);
    }
  }

  /** The dense index built from the text of a described table matches it. */
  lemma {:induction false} DescribedBuildsDense(c: Container, dense: seq<DenseEntry>)
    requires c.Valid() && Described(c)
    ensures forall i :: 0 <= i < |c.entries| ==>
              c.entries[i].LogicalEnd() <= |c.text| <= U64_MAX && |DenseOf(c.text, c.entries[i]).offsets| == c.entries[i].lineCount
    ensures |dense| == |c.entries| && (forall i :: 0 <= i < |dense| ==> dense[i] == DenseOf(c.text, c.entries[i])) ==> DenseMatches(c, dense)
  {
    hide Starts, LocalStarts, Tiles;
    TextFits(c);
    forall i | 0 <= i < |c.entries|
      ensures c.entries[i].LogicalEnd() <= |c.text| && |DenseOf(c.text, c.entries[i]).offsets| == c.entries[i].lineCount
    {
      assert DescribedAt(c, i);
      LocalStartsShift(c.text, c.entries[i].logicalOffset, c.entries[i].LogicalEnd(), c.entries[i].uncompressedSize);
    }
    if |dense| == |c.entries| && (forall i :: 0 <= i < |dense| ==> dense[i] == DenseOf(c.text, c.entries[i])) {
      forall i | 0 <= i < |c.entries| ensures DenseMatchesAt(c, dense, i) { assert dense[i] == DenseOf(c.text, c.entries[i]); }
    }
  }
}
