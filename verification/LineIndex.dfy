/**
 * The streaming line-index builder: one pass over decoded chunks, a carry buffer
 * for the line that crosses chunk boundaries, and a metered posting map.
 */
module LineIndex {
  import opened Bytes
  import opened Lines
  import opened Utf8
  import opened ChunkTable
  import opened ChunkCache
  import opened KeySets
  import opened Tokens
  import opened Ngrams
  import opened PostingStream
  import opened Verification

  datatype BuildKeys = TokenMode | NgramMode(n: nat) {
    predicate Valid() { NgramMode? ==> n > 0 }
  }

  /** The index keys of one line, in order, repetitions included. */
  function LineKeys(mode: BuildKeys, line: seq<Byte>): seq<Key> {
    match mode
    case TokenMode => TokenKeys(line, 0)
    case NgramMode(n) => if n > 0 && Utf8.Valid(line) then NgramKeys(line, n) else []
  }

  function Tagged(ks: seq<Key>, id: U64): (ps: seq<Pair>)
    ensures |ps| == |ks| && forall i :: 0 <= i < |ks| ==> ps[i] == (ks[i], id)
  {
    seq(|ks|, i requires 0 <= i < |ks| => (ks[i], id))
  }

  predicate SpansIn(t: seq<Byte>, ls: seq<Span>) {
    |ls| <= U64_MAX && forall i :: 0 <= i < |ls| ==> ls[i].0 <= ls[i].1 <= |t|
  }

  /** Every key of every line with its line number, in scanning order. */
  function Stream(mode: BuildKeys, t: seq<Byte>, ls: seq<Span>): seq<Pair>
    requires SpansIn(t, ls)
  {
    if ls == [] then []
    else Stream(mode, t, ls[..|ls| - 1]) + Tagged(LineKeys(mode, LineBytes(t, ls[|ls| - 1])), |ls| - 1)
  }

  lemma {:induction false} StreamSnocLine(mode: BuildKeys, t: seq<Byte>, ls: seq<Span>, l: Span)
    requires SpansIn(t, ls + [l]) && SpansIn(t, ls) && l.0 <= l.1 <= |t| && |ls| < U64_MAX
    ensures Stream(mode, t, ls + [l]) == Stream(mode, t, ls) + Tagged(LineKeys(mode, LineBytes(t, l)), |ls|)
  {
    hide LineKeys, Tagged;
    assert (ls + [l])[..|ls|] == ls;
  }

  /** The stream pairs a key with a line exactly when the line has the key; lines come in order. */
  lemma {:induction false} StreamExact(mode: BuildKeys, t: seq<Byte>, ls: seq<Span>)
    requires SpansIn(t, ls)
    ensures forall k, id: U64 :: (k, id) in Stream(mode, t, ls) <==> id < |ls| && k in LineKeys(mode, LineBytes(t, ls[id]))
    ensures LinesRise(Stream(mode, t, ls))
    ensures forall p :: p in Stream(mode, t, ls) ==> p.1 < |ls|
    decreases |ls|
  {
    hide LineKeys;
    if ls != [] {
      var n := |ls| - 1;
      var front := ls[..n];
      StreamExact(mode, t, front);
      var before, here := Stream(mode, t, front), Tagged(LineKeys(mode, LineBytes(t, ls[n])), n);
      RisingConcat(before, here, n);
      forall k, id: U64 ensures (k, id) in before + here <==> id < |ls| && k in LineKeys(mode, LineBytes(t, ls[id])) {
        if (k, id) in here { var i :| 0 <= i < |here| && here[i] == (k, id); }
        if id == n && k in LineKeys(mode, LineBytes(t, ls[n])) {
          var i :| 0 <= i < |here| && LineKeys(mode, LineBytes(t, ls[n]))[i] == k;
          assert here[i] == (k, id);
        }
      }
    }
  }

  lemma {:induction false} RisingConcat(a: seq<Pair>, b: seq<Pair>, n: U64)
    requires LinesRise(a) && (forall p :: p in a ==> p.1 < n) && (forall i :: 0 <= i < |b| ==> b[i].1 == n)
    ensures LinesRise(a + b)
  {
    var all := a + b;
    forall i, j | 0 <= i <= j < |all| ensures all[i].1 <= all[j].1 {
      if i < |a| { assert a[i] in a; }
      if j < |a| { assert a[j] in a; assert a[i].1 <= a[j].1; }
    }
  }

  // ----- the result -----

  /** A granule for one line: its range, its chunks, and its number. */
  ghost predicate IsLineGranule(c: Container, g: SearchGranule, l: Span, id: nat) {
    && g.granuleId == id
    && g.logicalOffset == l.0 && l.0 < l.1 && g.byteLength == l.1 - l.0
    && g.chunkStart == FirstChunk(c, l.0) && g.chunkEnd == PastChunk(c, l.1)
    && g.firstLine == Some(id) && g.lineCount == Some(1)
  }

  ghost predicate AreLineGranules(c: Container, gs: seq<SearchGranule>, ls: seq<Span>) {
    |gs| == |ls| && forall i :: 0 <= i < |gs| ==> IsLineGranule(c, gs[i], ls[i], i)
  }

  /** Granules, dictionary keys, and for each key its posting list and its flags. */
  datatype LineIndexParts = LineIndexParts(granules: seq<SearchGranule>, terms: seq<Key>, postings: seq<seq<U64>>, flags: seq<U64>)

  function NoFlags(n: nat): (flags: seq<U64>)
    ensures |flags| == n && forall i :: 0 <= i < n ==> flags[i] == 0
  {
    seq(n, _ => 0)
  }

  /** The index of the text: its lines, its sorted keys, and for each key the lines that hold it. */
  ghost predicate IsIndexOf(c: Container, mode: BuildKeys, parts: LineIndexParts) {
    var ls := LinesFrom(c.text, 0);
    && SpansIn(c.text, ls)
    && AreLineGranules(c, parts.granules, ls)
    && parts.terms == Dictionary(Stream(mode, c.text, ls))
    && |parts.postings| == |parts.terms|
    && parts.flags == NoFlags(|parts.terms|)
    && forall i :: 0 <= i < |parts.terms| ==> parts.postings[i] == PostingsOf(Stream(mode, c.text, ls), parts.terms[i])
  }

  predicate LinesShort(ls: seq<Span>, maxLine: nat) { forall i :: 0 <= i < |ls| ==> ls[i].1 - ls[i].0 <= maxLine }

  /** The limits hold of the whole text. */
  ghost predicate Buildable(t: seq<Byte>, mode: BuildKeys, maxLine: nat, limits: BuildLimits) {
    var ls := LinesFrom(t, 0);
    && SpansIn(t, ls)
    && |ls| <= limits.maxGranules
    && LinesShort(ls, maxLine)
    && WithinBuild(limits, Stream(mode, t, ls))
  }

  // ----- keys of one line -----

  lemma {:induction false} TaggedSnoc(ks: seq<Key>, k: Key, id: U64)
    ensures Tagged(ks + [k], id) == Tagged(ks, id) + [(k, id)]
  {
  }

  lemma {:induction false} TaggedConcat(a: seq<Key>, b: seq<Key>, id: U64)
    ensures Tagged(a + b, id) == Tagged(a, id) + Tagged(b, id)
  {
  }

  /** Once a prefix of the line's keys is over a limit, so are all of them. */
  lemma {:induction false} OverLimit(limits: BuildLimits, stream: seq<Pair>, done: seq<Key>, k: Key, rest: seq<Key>, id: U64)
    requires !WithinBuild(limits, stream + Tagged(done, id) + [(k, id)])
    ensures !WithinBuild(limits, stream + Tagged(done + [k] + rest, id))
  {
    hide WithinBuild;
    var a := stream + Tagged(done, id) + [(k, id)];
    TaggedSnoc(done, k, id);
    TaggedConcat(done + [k], rest, id);
    assert stream + Tagged(done + [k] + rest, id) == a + Tagged(rest, id);
    if WithinBuild(limits, a + Tagged(rest, id)) { WithinShrinks(limits, a, Tagged(rest, id)); }
  }

  method EmitTokens(line: seq<Byte>, id: U64, meter: BuildMeter) returns (ok: bool)
    requires meter.Valid()
    modifies meter
    ensures ok == WithinBuild(meter.limits, old(meter.stream) + Tagged(TokenKeys(line, 0), id))
    ensures ok ==> meter.Valid() && meter.stream == old(meter.stream) + Tagged(TokenKeys(line, 0), id)
  {
    hide *;
    var cursor := 0;
    ghost var stream, done, all := meter.stream, [], TokenKeys(line, 0);
    assert stream + Tagged([], id) == stream;
    while cursor < |line|
      invariant cursor <= |line| && meter.Valid() && meter.stream == stream + Tagged(done, id)
      invariant done + TokenKeys(line, cursor) == all
      decreases |line| - cursor
    {
      var start, end := NextRun(line, cursor);
      TokenKeysStep(line, cursor);
      RunProgress(line, cursor);
      if start < end {
        var key := Folded(line[start..end]);
        ghost var rest := TokenKeys(line, end);
        assert all == done + [key] + rest;
        var added := meter.AddKey(line[start..end], true, id);
        if !added { OverLimit(meter.limits, stream, done, key, rest, id); return false; }
        TaggedSnoc(done, key, id);
        assert stream + Tagged(done, id) + [(key, id)] == stream + Tagged(done + [key], id);
        done := done + [key];
      }
      cursor := end;
    }
    TokenKeysStep(line, cursor);
    assert done == all;
    StillWithin(meter);
    return true;
  }

  lemma {:induction false} StillWithin(meter: BuildMeter)
    requires meter.Valid()
    ensures WithinBuild(meter.limits, meter.stream)
  {
  }

  lemma {:induction false} TokenKeysStep(t: seq<Byte>, p: nat)
    requires p <= |t|
    ensures var s := RunStart(t, p);
            && (s < |t| ==> TokenKeys(t, p) == [Folded(t[s..RunEnd(t, s)])] + TokenKeys(t, RunEnd(t, s)))
            && (s == |t| ==> TokenKeys(t, p) == [] && TokenKeys(t, RunEnd(t, s)) == [])
    ensures p == |t| ==> TokenKeys(t, p) == []
  {
    hide Folded;
  }

  method EmitNgrams(line: seq<Byte>, n: nat, id: U64, meter: BuildMeter) returns (ok: bool)
    requires meter.Valid() && n > 0 && Utf8.Valid(line)
    modifies meter
    ensures ok == WithinBuild(meter.limits, old(meter.stream) + Tagged(NgramKeys(line, n), id))
    ensures ok ==> meter.Valid() && meter.stream == old(meter.stream) + Tagged(NgramKeys(line, n), id)
  {
    hide *;
    ghost var stream, all := meter.stream, NgramKeys(line, n);
    WholeValid(line, line);
    var cs := CharStarts(line, 0);
    NgramCount(line, n);
    StillWithin(meter);
    NoneTagged(stream, all, id);
    var count := if |cs| <= n then 0 else |cs| - n;
    for w := 0 to count
      invariant meter.Valid() && meter.stream == stream + Tagged(all[..w], id)
    {
      NgramKeyAt(line, n, w);
      NextTagged(meter.limits, stream, all, w, id);
      var added := meter.AddKey(line[cs[w]..cs[w + n]], false, id);
      if !added { return false; }
    }
    StillWithin(meter);
    return true;
  }

  lemma {:induction false} NgramCount(line: seq<Byte>, n: nat)
    requires n > 0 && Utf8.Valid(line)
    ensures |NgramKeys(line, n)| == if |CharStarts(line, 0)| <= n then 0 else |CharStarts(line, 0)| - n
  {
    hide CharStarts;
  }

  lemma {:induction false} NoneTagged(stream: seq<Pair>, all: seq<Key>, id: U64)
    ensures stream + Tagged(all[..0], id) == stream && all[..|all|] == all
  {
  }

  /** The next key of the line extends the stream, and over a limit it settles the whole line. */
  lemma {:induction false} NextTagged(limits: BuildLimits, stream: seq<Pair>, all: seq<Key>, w: nat, id: U64)
    requires w < |all|
    ensures stream + Tagged(all[..w], id) + [(all[w], id)] == stream + Tagged(all[..w + 1], id)
    ensures !WithinBuild(limits, stream + Tagged(all[..w], id) + [(all[w], id)]) ==> !WithinBuild(limits, stream + Tagged(all, id))
  {
    hide *;
    TaggedSnoc(all[..w], all[w], id);
    assert all[..w] + [all[w]] == all[..w + 1];
    assert all[..w] + [all[w]] + all[w + 1..] == all;
    if !WithinBuild(limits, stream + Tagged(all[..w], id) + [(all[w], id)]) {
      OverLimit(limits, stream, all[..w], all[w], all[w + 1..], id);
    }
  }

  // ----- one line -----

  /** The first lines of the text are indexed; the next one starts at `lineStart`. */
  ghost predicate LinesDone(c: Container, mode: BuildKeys, maxLine: nat, limits: BuildLimits, ls: seq<Span>, granules: seq<SearchGranule>, stream: seq<Pair>, lineStart: nat) {
    && lineStart <= |c.text|
    && (lineStart == |c.text| || IsStart(c.text, lineStart))
    && ls + LinesFrom(c.text, lineStart) == LinesFrom(c.text, 0)
    && SpansIn(c.text, ls)
    && |ls| <= limits.maxGranules
    && LinesShort(ls, maxLine)
    && AreLineGranules(c, granules, ls)
    && stream == Stream(mode, c.text, ls)
  }

  lemma {:induction false} StreamPrefix(mode: BuildKeys, t: seq<Byte>, ls: seq<Span>, n: nat)
    requires SpansIn(t, ls) && n <= |ls|
    ensures SpansIn(t, ls[..n]) && Stream(mode, t, ls[..n]) <= Stream(mode, t, ls)
    decreases |ls|
  {
    hide LineKeys;
    if n == |ls| {
      assert ls[..n] == ls;
    } else {
      assert ls[..|ls| - 1][..n] == ls[..n];
      StreamPrefix(mode, t, ls[..|ls| - 1], n);
    }
  }

  /** A limit broken after some lines is broken for the text. */
  lemma {:induction false} LinesOverLimit(t: seq<Byte>, mode: BuildKeys, maxLine: nat, limits: BuildLimits, ls: seq<Span>, lineStart: nat)
    requires ls + LinesFrom(t, lineStart) == LinesFrom(t, 0)
    requires SpansIn(t, ls) ==> !(|ls| <= limits.maxGranules && LinesShort(ls, maxLine) && WithinBuild(limits, Stream(mode, t, ls)))
    ensures !Buildable(t, mode, maxLine, limits)
  {
    hide LinesFrom, WithinBuild, Stream, LineKeys;
    var all := LinesFrom(t, 0);
    assert all[..|ls|] == ls;
    if Buildable(t, mode, maxLine, limits) {
      StreamPrefix(mode, t, all, |ls|);
      var a, b := Stream(mode, t, ls), Stream(mode, t, all);
      assert b == a + b[|a|..];
      WithinShrinks(limits, a, b[|a|..]);
    }
  }

  lemma {:induction false} FewLines(t: seq<Byte>, p: nat)
    ensures |LinesFrom(t, p)| <= |t| - p || LinesFrom(t, p) == []
    decreases |t| - p
  {
    if p < |t| { FewLines(t, LineEnd(t, p)); }
  }

  method EmitKeys(mode: BuildKeys, line: seq<Byte>, id: U64, meter: BuildMeter) returns (ok: bool)
    requires meter.Valid() && mode.Valid() && Utf8.Valid(line)
    modifies meter
    ensures ok == WithinBuild(meter.limits, old(meter.stream) + Tagged(LineKeys(mode, line), id))
    ensures ok ==> meter.Valid() && meter.stream == old(meter.stream) + Tagged(LineKeys(mode, line), id)
  {
    hide TokenKeys, NgramKeys, WithinBuild;
    match mode
    case TokenMode => ok := EmitTokens(line, id, meter);
    case NgramMode(n) =>
      if !Utf8.Valid(line) { return false; }
      ok := EmitNgrams(line, n, id, meter);
  }

  /** `emit_line_granule`: records the line, or fails because a limit is broken by the text. */
  method EmitLineGranule(c: Container, mode: BuildKeys, ghost maxLine: nat, lineStart: U64, lineEnd: U64, line: seq<Byte>, granules: seq<SearchGranule>, meter: BuildMeter, ghost ls: seq<Span>)
    returns (r: Result<seq<SearchGranule>>)
    requires c.Valid() && mode.Valid() && meter.Valid()
    requires LinesDone(c, mode, maxLine, meter.limits, ls, granules, meter.stream, lineStart)
    requires lineStart < |c.text| && lineEnd == LineEnd(c.text, lineStart) && line == c.text[lineStart..lineEnd]
    requires |line| <= maxLine && Utf8.Valid(line)
    modifies meter
    ensures r.Err? ==> !Buildable(c.text, mode, maxLine, meter.limits)
    ensures r.Ok? ==> meter.Valid() && LinesDone(c, mode, maxLine, meter.limits, ls + [(lineStart, lineEnd)], r.value, meter.stream, lineEnd)
  {
    ghost var l, stream := (lineStart, lineEnd), meter.stream;
    ghost var more := ls + [l];
    FewLines(c.text, 0);
    TextFits(c);
    LinesFromStep(c.text, ls, lineStart);
    assert |more| <= |LinesFrom(c.text, 0)| <= U64_MAX;
    OpenLines(c, mode, maxLine, meter.limits, ls, granules, stream, lineStart);
    if |granules| >= meter.limits.maxGranules {
      LinesOverLimit(c.text, mode, maxLine, meter.limits, more, lineEnd);
      return Err;
    }
    hide *;
    OneMoreLine(c, mode, maxLine, meter.limits, ls, granules, stream, l);
    var first, past := SpanOf(c, lineStart, lineEnd);
    var id: U64 := |granules|;
    var g := SearchGranule(id, lineStart, lineEnd - lineStart, first, past, Some(id), Some(1));
    LineGranuleIs(c, g, l, id);
    var ok := EmitKeys(mode, line, id, meter);
    if !ok {
      LinesOverLimit(c.text, mode, maxLine, meter.limits, more, lineEnd);
      return Err;
    }
    LinesDoneNext(c, mode, maxLine, meter.limits, ls, granules, stream, l, g);
    return Ok(granules + [g]);
  }

  lemma {:induction false} LineGranuleIs(c: Container, g: SearchGranule, l: Span, id: U64)
    requires l.0 < l.1 && l.0 <= U64_MAX && g.granuleId == id && g.logicalOffset == l.0 && g.byteLength == l.1 - l.0
    requires g.chunkStart == FirstChunk(c, l.0) && g.chunkEnd == PastChunk(c, l.1)
    requires g.firstLine == Some(id) && g.lineCount == Some(1)
    ensures IsLineGranule(c, g, l, id)
  {
  }

  lemma {:induction false} OpenLines(c: Container, mode: BuildKeys, maxLine: nat, limits: BuildLimits, ls: seq<Span>, granules: seq<SearchGranule>, stream: seq<Pair>, lineStart: nat)
    requires LinesDone(c, mode, maxLine, limits, ls, granules, stream, lineStart)
    ensures |granules| == |ls| && ls + LinesFrom(c.text, lineStart) == LinesFrom(c.text, 0)
  {
    hide LinesFrom, Stream;
  }

  lemma {:induction false} OneMoreLine(c: Container, mode: BuildKeys, maxLine: nat, limits: BuildLimits, ls: seq<Span>, granules: seq<SearchGranule>, stream: seq<Pair>, l: Span)
    requires LinesDone(c, mode, maxLine, limits, ls, granules, stream, l.0) && |ls| < U64_MAX
    requires l.0 <= l.1 <= |c.text|
    ensures SpansIn(c.text, ls + [l]) && Stream(mode, c.text, ls + [l]) == stream + Tagged(LineKeys(mode, c.text[l.0..l.1]), |ls|)
  {
    hide LinesFrom, LineKeys, Stream;
    assert SpansIn(c.text, ls + [l]);
    StreamSnocLine(mode, c.text, ls, l);
  }

  lemma {:induction false} LinesDoneNext(c: Container, mode: BuildKeys, maxLine: nat, limits: BuildLimits, ls: seq<Span>, granules: seq<SearchGranule>, stream: seq<Pair>, l: Span, g: SearchGranule)
    requires LinesDone(c, mode, maxLine, limits, ls, granules, stream, l.0) && |ls| < limits.maxGranules
    requires l.0 < |c.text| && l.1 == LineEnd(c.text, l.0) && l.1 - l.0 <= maxLine && IsLineGranule(c, g, l, |ls|)
    requires SpansIn(c.text, ls + [l])
    ensures LinesDone(c, mode, maxLine, limits, ls + [l], granules + [g], Stream(mode, c.text, ls + [l]), l.1)
  {
    hide LinesFrom, LineKeys, Stream, IsLineGranule;
    LinesFromStep(c.text, ls, l.0);
    hide LineEnd, IsStart;
    assert LinesShort(ls + [l], maxLine);
    assert AreLineGranules(c, granules + [g], ls + [l]);
  }

  // ----- one chunk -----

  lemma {:induction false} LineEndsHere(t: seq<Byte>, a: nat, p: nat)
    requires a <= p < |t| && NoLf(t, a, p)
    ensures t[p] == LF ==> LineEnd(t, a) == p + 1
    ensures p + 1 == |t| ==> LineEnd(t, a) == p + 1
    ensures p < LineEnd(t, a)
  {
    var e := LineEnd(t, a);
    assert e == |t| || t[e - 1] == LF;
  }

  /** A line of a valid text is valid. */
  lemma {:induction false} LineValid(t: seq<Byte>, a: nat, b: nat)
    requires Utf8.Valid(t) && a <= b <= |t|
    requires a == 0 || t[a - 1] == LF
    requires b == |t| || (b > 0 && t[b - 1] == LF)
    ensures Utf8.Valid(t[a..b])
  {
    if a > 0 { AfterAscii(t, 0, a - 1); }
    if b < |t| { AfterAscii(t, 0, b - 1); }
    BoundaryIsValid(t, 0, a);
    SliceValid(t, a, a, b);
  }

  /** The builder between two bytes: lines done, and the bytes of the open line still held. */
  ghost predicate Open(c: Container, mode: BuildKeys, maxLine: nat, limits: BuildLimits, ls: seq<Span>, granules: seq<SearchGranule>, stream: seq<Pair>, lineStart: nat, pos: nat, held: seq<Byte>) {
    && LinesDone(c, mode, maxLine, limits, ls, granules, stream, lineStart)
    && lineStart <= pos <= |c.text|
    && NoLf(c.text, lineStart, pos)
    && held == c.text[lineStart..pos]
  }

  /** Too long so far, too long in the end. */
  lemma {:induction false} LineTooLong(c: Container, mode: BuildKeys, maxLine: nat, limits: BuildLimits, ls: seq<Span>, granules: seq<SearchGranule>, stream: seq<Pair>, lineStart: nat, size: nat)
    requires LinesDone(c, mode, maxLine, limits, ls, granules, stream, lineStart)
    requires lineStart < |c.text| && maxLine < size <= LineEnd(c.text, lineStart) - lineStart
    ensures !Buildable(c.text, mode, maxLine, limits)
  {
    var l := (lineStart, LineEnd(c.text, lineStart));
    LinesFromStep(c.text, ls, lineStart);
    hide LinesFrom, Stream, WithinBuild, LineKeys;
    assert (ls + [l])[|ls|] == l;
    LinesOverLimit(c.text, mode, maxLine, limits, ls + [l], l.1);
  }

  lemma {:induction false} OpenFacts(c: Container, mode: BuildKeys, maxLine: nat, limits: BuildLimits, ls: seq<Span>, granules: seq<SearchGranule>, stream: seq<Pair>, lineStart: nat, pos: nat, held: seq<Byte>)
    requires Open(c, mode, maxLine, limits, ls, granules, stream, lineStart, pos, held)
    ensures LinesDone(c, mode, maxLine, limits, ls, granules, stream, lineStart)
    ensures lineStart <= pos <= |c.text| && held == c.text[lineStart..pos]
    ensures lineStart < |c.text| ==> IsStart(c.text, lineStart)
    ensures pos < |c.text| ==>
              && pos < LineEnd(c.text, lineStart)
              && (c.text[pos] == LF ==> LineEnd(c.text, lineStart) == pos + 1)
              && (c.text[pos] != LF ==> Open(c, mode, maxLine, limits, ls, granules, stream, lineStart, pos + 1, held + [c.text[pos]]))
    ensures lineStart < pos ==> pos <= LineEnd(c.text, lineStart) && (pos == |c.text| ==> LineEnd(c.text, lineStart) == pos)
  {
    hide LinesFrom, Stream, AreLineGranules, LineEnd;
    var t := c.text;
    if pos < |t| {
      LineEndsHere(t, lineStart, pos);
      assert t[lineStart..pos] + [t[pos]] == t[lineStart..pos + 1];
    }
    if lineStart < pos { LineEndsHere(t, lineStart, pos - 1); }
  }

  lemma {:induction false} OpenNext(c: Container, mode: BuildKeys, maxLine: nat, limits: BuildLimits, ls: seq<Span>, granules: seq<SearchGranule>, stream: seq<Pair>, lineStart: nat)
    requires LinesDone(c, mode, maxLine, limits, ls, granules, stream, lineStart)
    ensures Open(c, mode, maxLine, limits, ls, granules, stream, lineStart, lineStart, [])
  {
    hide LinesFrom, Stream, AreLineGranules;
    assert c.text[lineStart..lineStart] == [];
  }

  lemma {:induction false} HeldGrows(carry: seq<Byte>, decoded: seq<Byte>, consumed: nat, index: nat)
    requires consumed <= index < |decoded|
    ensures carry + decoded[consumed..index + 1] == carry + decoded[consumed..index] + [decoded[index]]
    ensures [] + decoded[index + 1..index + 1] == []
  {
  }

  /** A line break ends the open line: size check, then emit. */
  method CloseLine(c: Container, mode: BuildKeys, maxLine: U64, lineStart: U64, lineEnd: U64, ghost chunkEnd: nat, carry: seq<Byte>, segment: seq<Byte>, ghost part: seq<Byte>, granules: seq<SearchGranule>, meter: BuildMeter, ghost ls: seq<Span>)
    returns (r: Result<seq<SearchGranule>>)
    requires c.Valid() && mode.Valid() && meter.Valid() && 0 < lineEnd <= chunkEnd <= |c.text| && Utf8.Valid(c.text[..chunkEnd])
    requires Open(c, mode, maxLine, meter.limits, ls, granules, meter.stream, lineStart, lineEnd - 1, carry + part)
    requires c.text[lineEnd - 1] == LF && carry + segment == carry + part + [LF]
    modifies meter
    ensures r.Err? ==> !Buildable(c.text, mode, maxLine, meter.limits)
    ensures r.Ok? ==> meter.Valid()
    ensures r.Ok? ==> Open(c, mode, maxLine, meter.limits, ls + [(lineStart, lineEnd)], r.value, meter.stream, lineEnd, lineEnd, [])
  {
    hide *;
    OpenFacts(c, mode, maxLine, meter.limits, ls, granules, meter.stream, lineStart, lineEnd - 1, carry + part);
    SliceSnoc(c.text, lineStart, lineEnd - 1);
    assert |carry| + |segment| == |carry + segment| == lineEnd - lineStart;
    if |carry| + |segment| > maxLine {
      LineTooLong(c, mode, maxLine, meter.limits, ls, granules, meter.stream, lineStart, |carry| + |segment|);
      return Err;
    }
    LineOfPrefix(c.text, chunkEnd, lineStart, lineEnd);
    r := EmitLineGranule(c, mode, maxLine, lineStart, lineEnd, carry + segment, granules, meter, ls);
    if r.Ok? { OpenNext(c, mode, maxLine, meter.limits, ls + [(lineStart, lineEnd)], r.value, meter.stream, lineEnd); }
  }

  /** The byte loop over one decoded chunk: closes every line that ends in it. */
  method ScanBytes(c: Container, mode: BuildKeys, maxLine: U64, e: ChunkEntry, decoded: seq<Byte>, meter: BuildMeter, granules0: seq<SearchGranule>, carry0: seq<Byte>, lineStart0: U64, ghost ls0: seq<Span>)
    returns (ok: bool, granules: seq<SearchGranule>, carry: seq<Byte>, lineStart: U64, consumed: nat, ghost ls: seq<Span>)
    requires c.Valid() && mode.Valid() && meter.Valid() && e.LogicalEnd() <= |c.text| && decoded == ChunkText(c, e)
    requires Utf8.Valid(c.text[..e.LogicalEnd()])
    requires Open(c, mode, maxLine, meter.limits, ls0, granules0, meter.stream, lineStart0, e.logicalOffset, carry0) && |carry0| <= maxLine
    modifies meter
    ensures !ok ==> !Buildable(c.text, mode, maxLine, meter.limits)
    ensures ok ==> meter.Valid() && |carry| <= maxLine && consumed <= |decoded|
    ensures ok ==> Open(c, mode, maxLine, meter.limits, ls, granules, meter.stream, lineStart, e.LogicalEnd(), carry + decoded[consumed..])
  {
    hide *;
    TextFits(c);
    ChunkSize(c, e);
    granules, carry, lineStart, ls := granules0, carry0, lineStart0, ls0;
    consumed := 0;
    assert carry + decoded[0..0] == carry;
    for index := 0 to |decoded|
      invariant meter.Valid() && consumed <= index && |carry| <= maxLine
      invariant Open(c, mode, maxLine, meter.limits, ls, granules, meter.stream, lineStart, e.logicalOffset + index, carry + decoded[consumed..index])
    {
      ChunkByte(c, e, index);
      HeldGrows(carry, decoded, consumed, index);
      if decoded[index] != LF {
        OpenFacts(c, mode, maxLine, meter.limits, ls, granules, meter.stream, lineStart, e.logicalOffset + index, carry + decoded[consumed..index]);
        continue;
      }
      var lineEnd := e.logicalOffset + (index + 1);
      var emitted := CloseLine(c, mode, maxLine, lineStart, lineEnd, e.LogicalEnd(), carry, decoded[consumed..index + 1], decoded[consumed..index], granules, meter, ls);
      if emitted.Err? { return false, granules, carry, lineStart, consumed, ls; }
      ls, granules := ls + [(lineStart, lineEnd)], emitted.value;
      carry, consumed, lineStart := [], index + 1, lineEnd;
    }
    assert decoded[consumed..|decoded|] == decoded[consumed..];
    ok := true;
  }

  /** What is left of the chunk joins the carry buffer, within the line limit. */
  method HoldRest(c: Container, mode: BuildKeys, maxLine: U64, decoded: seq<Byte>, consumed: nat, meter: BuildMeter, ghost granules: seq<SearchGranule>, carry: seq<Byte>, ghost lineStart: nat, ghost ls: seq<Span>, ghost end: nat)
    returns (r: Result<seq<Byte>>)
    requires c.Valid() && meter.Valid() && |carry| <= maxLine && consumed <= |decoded|
    requires Open(c, mode, maxLine, meter.limits, ls, granules, meter.stream, lineStart, end, carry + decoded[consumed..])
    ensures r.Err? ==> !Buildable(c.text, mode, maxLine, meter.limits)
    ensures r.Ok? ==> r.value == carry + decoded[consumed..] && |r.value| <= maxLine
  {
    hide *;
    OpenFacts(c, mode, maxLine, meter.limits, ls, granules, meter.stream, lineStart, end, carry + decoded[consumed..]);
    if consumed < |decoded| {
      if |carry| + (|decoded| - consumed) > maxLine {
        LineTooLong(c, mode, maxLine, meter.limits, ls, granules, meter.stream, lineStart, |carry| + (|decoded| - consumed));
        return Err;
      }
      return Ok(carry + decoded[consumed..]);
    }
    assert carry + decoded[consumed..] == carry;
    return Ok(carry);
  }

  lemma {:induction false} ChunkSize(c: Container, e: ChunkEntry)
    requires e.LogicalEnd() <= |c.text|
    ensures e.LogicalEnd() == e.logicalOffset + |ChunkText(c, e)|
  {
  }

  lemma {:induction false} ChunkByte(c: Container, e: ChunkEntry, i: nat)
    requires e.LogicalEnd() <= |c.text| && i < |ChunkText(c, e)|
    ensures e.logicalOffset + i < |c.text| && ChunkText(c, e)[i] == c.text[e.logicalOffset + i]
  {
  }

  lemma {:induction false} SliceSnoc(t: seq<Byte>, a: nat, p: nat)
    requires a <= p < |t|
    ensures t[a..p] + [t[p]] == t[a..p + 1]
  {
  }

  lemma {:induction false} LineOfPrefix(t: seq<Byte>, end: nat, a: nat, b: nat)
    requires a < b <= end <= |t| && Utf8.Valid(t[..end]) && IsStart(t, a) && t[b - 1] == LF
    ensures Utf8.Valid(t[a..b])
  {
    var u := t[..end];
    assert a > 0 ==> u[a - 1] == t[a - 1];
    assert u[b - 1] == t[b - 1];
    LineValid(u, a, b);
    assert u[a..b] == t[a..b];
  }

  // ----- the whole text -----

  ghost predicate ChunksValid(c: Container)
    requires c.Valid()
  {
    forall i :: 0 <= i < |c.entries| ==> ChunkValid(c, i)
  }

  ghost predicate ChunkValid(c: Container, i: nat)
    requires c.Valid() && i < |c.entries|
  {
    TilesBelow(c.entries, |c.text|, i);
    Utf8.Valid(ChunkText(c, c.entries[i]))
  }

  /** Valid so far and a valid chunk: valid up to the end of the chunk. */
  lemma {:induction false} PrefixValid(c: Container, i: nat)
    requires c.Valid() && i < |c.entries| && ChunkValid(c, i)
    requires EndBefore(c.entries, i) <= |c.text| && Utf8.Valid(c.text[..EndBefore(c.entries, i)])
    ensures c.entries[i].LogicalEnd() <= |c.text| && Utf8.Valid(c.text[..c.entries[i].LogicalEnd()])
    ensures c.entries[i].LogicalEnd() == EndBefore(c.entries, i + 1) && c.entries[i].logicalOffset == EndBefore(c.entries, i)
  {
    TilesBelow(c.entries, |c.text|, i);
    assert ChunkInPlace(c.entries, i);
    var e := c.entries[i];
    ConcatValid(c.text[..e.logicalOffset], ChunkText(c, e), 0);
    assert c.text[..e.logicalOffset] + ChunkText(c, e) == c.text[..e.LogicalEnd()];
  }

  /** A table whose chunks are all valid UTF-8 is over a valid text. */
  lemma {:induction false} ChunksValidText(c: Container, n: nat)
    requires c.Valid() && ChunksValid(c) && n <= |c.entries|
    ensures EndBefore(c.entries, n) <= |c.text| && Utf8.Valid(c.text[..EndBefore(c.entries, n)])
  {
    if n > 0 {
      ChunksValidText(c, n - 1);
      assert ChunkValid(c, n - 1);
      PrefixValid(c, n - 1);
    } else {
      assert c.text[..0] == [];
    }
  }

  lemma {:induction false} NothingDone(c: Container, mode: BuildKeys, maxLine: nat, limits: BuildLimits)
    ensures Open(c, mode, maxLine, limits, [], [], [], 0, 0, [])
  {
    assert [] + LinesFrom(c.text, 0) == LinesFrom(c.text, 0);
    assert c.text[0..0] == [];
  }

  /**
   * `build_line_index_streaming`. It succeeds exactly when every chunk is UTF-8 and the
   * limits hold of the whole text, and then its result depends on the text alone, except
   * for the chunk numbers in the granules.
   */
  method BuildLineIndexStreaming(c: Container, maxLine: U64, limits: BuildLimits, mode: BuildKeys)
    returns (r: Result<LineIndexParts>)
    requires c.Valid() && mode.Valid()
    ensures r.Ok? <==> ChunksValid(c) && Buildable(c.text, mode, maxLine, limits)
    ensures r.Ok? ==> IsIndexOf(c, mode, r.value)
  {
    hide *;
    TextFits(c);
    var meter := new BuildMeter(limits);
    var granules: seq<SearchGranule>, carry: seq<Byte>, lineStart: U64 := [], [], 0;
    ghost var ls: seq<Span> := [];
    NothingDone(c, mode, maxLine, limits);
    TableStart(c);
    for i := 0 to |c.entries|
      invariant fresh(meter) && meter.Valid() && meter.limits == limits && |carry| <= maxLine
      invariant EndBefore(c.entries, i) <= |c.text| && Utf8.Valid(c.text[..EndBefore(c.entries, i)])
      invariant forall k :: 0 <= k < i ==> ChunkValid(c, k)
      invariant Open(c, mode, maxLine, limits, ls, granules, meter.stream, lineStart, EndBefore(c.entries, i), carry)
    {
      var e := c.entries[i];
      var decoded := Decode(c, i);
      if !Utf8.Valid(decoded) { OneInvalid(c, i); return Err; }
      ChunkValidIs(c, i);
      PrefixValid(c, i);
      var ok, g, held, start, consumed;
      ghost var more;
      ok, g, held, start, consumed, more := ScanBytes(c, mode, maxLine, e, decoded, meter, granules, carry, lineStart, ls);
      if !ok { return Err; }
      granules, lineStart, ls := g, start, more;
      var rest := HoldRest(c, mode, maxLine, decoded, consumed, meter, granules, held, lineStart, ls, e.LogicalEnd());
      if rest.Err? { return Err; }
      carry := rest.value;
    }
    TableEnd(c);
    OpenFacts(c, mode, maxLine, limits, ls, granules, meter.stream, lineStart, |c.text|, carry);
    if carry != [] {
      LineOfPrefixEnd(c.text, lineStart);
      var emitted := EmitLineGranule(c, mode, maxLine, lineStart, |c.text|, carry, granules, meter, ls);
      if emitted.Err? { return Err; }
      granules, ls := emitted.value, ls + [(lineStart, |c.text|)];
    }
    AllDone(c, mode, maxLine, limits, ls, granules, meter.stream);
    var postings := CollectLists(meter);
    BuiltIs(c, mode, maxLine, limits, ls, granules, meter, postings);
    ChunksValidIs(c);
    return Ok(LineIndexParts(granules, meter.dictionary, postings, NoFlags(|meter.dictionary|)));
  }

  method Decode(c: Container, i: nat) returns (decoded: seq<Byte>)
    requires c.Valid() && i < |c.entries|
    ensures c.entries[i].LogicalEnd() <= |c.text| && decoded == ChunkText(c, c.entries[i])
    ensures Utf8.Valid(decoded) == ChunkValid(c, i)
  {
    TilesBelow(c.entries, |c.text|, i);
    return ChunkText(c, c.entries[i]);
  }

  /** The map's lists in dictionary order. */
  method CollectLists(meter: BuildMeter) returns (postings: seq<seq<U64>>)
    requires meter.Valid()
    ensures |postings| == |meter.dictionary|
    ensures forall i :: 0 <= i < |postings| ==> postings[i] == PostingsOf(meter.stream, meter.dictionary[i])
  {
    hide PostingsOf, Dictionary, WithinBuild;
    postings := [];
    for i := 0 to |meter.dictionary|
      invariant |postings| == i
      invariant forall k :: 0 <= k < i ==> postings[k] == PostingsOf(meter.stream, meter.dictionary[k])
    {
      assert meter.dictionary[i] in meter.lists;
      postings := postings + [meter.lists[meter.dictionary[i]]];
    }
  }

  lemma {:induction false} OneInvalid(c: Container, i: nat)
    requires c.Valid() && i < |c.entries| && !ChunkValid(c, i)
    ensures !ChunksValid(c)
  {
  }

  lemma {:induction false} ChunkValidIs(c: Container, i: nat)
    requires c.Valid() && i < |c.entries|
    ensures c.entries[i].LogicalEnd() == EndBefore(c.entries, i + 1)
    ensures c.entries[i].logicalOffset == EndBefore(c.entries, i)
  {
    assert ChunkInPlace(c.entries, i);
  }

  lemma {:induction false} ChunksValidIs(c: Container)
    requires c.Valid() && forall k :: 0 <= k < |c.entries| ==> ChunkValid(c, k)
    ensures ChunksValid(c)
  {
  }

  lemma {:induction false} TableStart(c: Container)
    ensures EndBefore(c.entries, 0) == 0 && c.text[..0] == [] && Utf8.Valid(c.text[..0])
  {
  }

  lemma {:induction false} TableEnd(c: Container)
    requires c.Valid()
    ensures EndBefore(c.entries, |c.entries|) == |c.text| && c.text[..|c.text|] == c.text
  {
  }

  lemma {:induction false} LineOfPrefixEnd(t: seq<Byte>, a: nat)
    requires Utf8.Valid(t) && IsStart(t, a)
    ensures Utf8.Valid(t[a..|t|])
  {
    LineValid(t, a, |t|);
  }

  lemma {:induction false} AllDone(c: Container, mode: BuildKeys, maxLine: nat, limits: BuildLimits, ls: seq<Span>, granules: seq<SearchGranule>, stream: seq<Pair>)
    requires LinesDone(c, mode, maxLine, limits, ls, granules, stream, |c.text|)
    ensures ls == LinesFrom(c.text, 0)
  {
    assert LinesFrom(c.text, |c.text|) == [];
  }

  lemma {:induction false} BuiltIs(c: Container, mode: BuildKeys, maxLine: nat, limits: BuildLimits, ls: seq<Span>, granules: seq<SearchGranule>, meter: BuildMeter, postings: seq<seq<U64>>)
    requires ls == LinesFrom(c.text, 0) && LinesDone(c, mode, maxLine, limits, ls, granules, meter.stream, |c.text|)
    requires meter.Valid() && meter.limits == limits && |postings| == |meter.dictionary|
    requires forall i :: 0 <= i < |postings| ==> postings[i] == PostingsOf(meter.stream, meter.dictionary[i])
    ensures Buildable(c.text, mode, maxLine, limits)
    ensures IsIndexOf(c, mode, LineIndexParts(granules, meter.dictionary, postings, NoFlags(|meter.dictionary|)))
  {
    hide LinesFrom, PostingsOf, Dictionary, Stream, WithinBuild, AreLineGranules, LinesShort;
    StillWithin(meter);
  }
}
