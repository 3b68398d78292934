/**
 * Lines of a text: LF-terminated pieces, the last one possibly without LF.
 * A line is given by its byte span; a line start by its offset.
 */
module Lines {
  import opened Bytes

  type Span = (nat, nat)

  predicate IsStart(t: seq<Byte>, p: int) {
    0 <= p < |t| && (p == 0 || t[p - 1] == LF)
  }

  /** The line starts in `[lo, hi)`, ascending. */
  function Starts(t: seq<Byte>, lo: nat, hi: nat): (s: seq<nat>)
    requires lo <= hi
    ensures |s| <= hi - lo
    decreases hi - lo
  {
    if lo == hi then [] else Starts(t, lo, hi - 1) + (if IsStart(t, hi - 1) then [hi - 1] else [])
  }

  lemma {:induction false} StartsSplit(t: seq<Byte>, lo: nat, mid: nat, hi: nat)
    requires lo <= mid <= hi
    ensures Starts(t, lo, hi) == Starts(t, lo, mid) + Starts(t, mid, hi)
    decreases hi - mid
  {
    if mid < hi {
      StartsSplit(t, lo, mid, hi - 1);
      var last := if IsStart(t, hi - 1) then [hi - 1] else [];
      assert (Starts(t, lo, mid) + Starts(t, mid, hi - 1)) + last == Starts(t, lo, mid) + (Starts(t, mid, hi - 1) + last);
    }
  }

  /** `Starts` holds exactly the line starts of its range, in ascending order. */
  lemma {:induction false} StartsExact(t: seq<Byte>, lo: nat, hi: nat)
    requires lo <= hi
    ensures forall p :: p in Starts(t, lo, hi) <==> lo <= p < hi && IsStart(t, p)
    ensures forall i, j :: 0 <= i < j < |Starts(t, lo, hi)| ==> Starts(t, lo, hi)[i] < Starts(t, lo, hi)[j]
    decreases hi - lo
  {
    if lo < hi {
      StartsExact(t, lo, hi - 1);
      var head := Starts(t, lo, hi - 1);
      forall i, j | 0 <= i < j < |Starts(t, lo, hi)| ensures Starts(t, lo, hi)[i] < Starts(t, lo, hi)[j] {
        assert head[i] in head;
        if j < |head| { assert head[i] < head[j]; }
      }
    }
  }

  /** No start is strictly inside a stretch without LF. */
  lemma {:induction false} NoStarts(t: seq<Byte>, lo: nat, hi: nat)
    requires lo <= hi <= |t|
    requires forall p :: lo <= p < hi ==> !IsStart(t, p)
    ensures Starts(t, lo, hi) == []
    decreases hi - lo
  {
    if lo < hi { NoStarts(t, lo, hi - 1); }
  }

  /** The end of the line containing position `p`: just past its LF, or the end of the text. */
  function LineEnd(t: seq<Byte>, p: nat): (e: nat)
    requires p < |t|
    ensures p < e <= |t|
    ensures forall q :: p <= q < e - 1 ==> t[q] != LF
    ensures e == |t| || t[e - 1] == LF
    decreases |t| - p
  {
    if t[p] == LF || p + 1 == |t| then p + 1 else LineEnd(t, p + 1)
  }

  /** The lines from a line start on. */
  function LinesFrom(t: seq<Byte>, p: nat): (ls: seq<Span>)
    decreases |t| - p
  {
    if p >= |t| then [] else [(p, LineEnd(t, p))] + LinesFrom(t, LineEnd(t, p))
  }

  function LineBytes(t: seq<Byte>, line: Span): seq<Byte>
    requires line.0 <= line.1 <= |t|
  {
    t[line.0..line.1]
  }

  /** A line span: starts at a line start and ends at its line end. */
  predicate IsLine(t: seq<Byte>, line: Span) {
    && IsStart(t, line.0)
    && line.0 < line.1 <= |t|
    && line.1 == LineEnd(t, line.0)
  }

  /** Lines tile the text from `p` to its end, each a proper line. */
  lemma {:induction false} LinesTile(t: seq<Byte>, p: nat)
    requires p == |t| || IsStart(t, p)
    ensures var ls := LinesFrom(t, p);
            && (forall i :: 0 <= i < |ls| ==> IsLine(t, ls[i]))
            && (forall i :: 0 <= i < |ls| - 1 ==> ls[i].1 == ls[i + 1].0)
            && (p < |t| ==> |ls| > 0 && ls[0].0 == p && ls[|ls| - 1].1 == |t|)
            && (p == |t| ==> ls == [])
    decreases |t| - p
  {
    if p < |t| { LinesTile(t, LineEnd(t, p)); }
  }

  lemma {:induction false} StartsOfLine(t: seq<Byte>, p: nat)
    requires IsStart(t, p)
    ensures Starts(t, p, |t|) == [p] + Starts(t, LineEnd(t, p), |t|)
  {
    hide LineEnd;
    var e := LineEnd(t, p);
    assert Starts(t, p, e) == [p] by {
      StartsSplit(t, p, p + 1, e);
      NoStarts(t, p + 1, e);
      assert Starts(t, p, p + 1) == Starts(t, p, p) + [p];
    }
    hide Starts;
    StartsSplit(t, p, e, |t|);
  }

  /** The starts of the lines are the line starts. */
  lemma {:induction false} LineStartsAgree(t: seq<Byte>, p: nat)
    requires p == |t| || IsStart(t, p)
    ensures var ls := LinesFrom(t, p); var ss := Starts(t, p, |t|);
            |ls| == |ss| && forall i :: 0 <= i < |ls| ==> ls[i].0 == ss[i]
    decreases |t| - p
  {
    if p < |t| {
      var e := LineEnd(t, p);
      LineStartsAgree(t, e);
      StartsOfLine(t, p);
      var ls, ss := LinesFrom(t, e), Starts(t, e, |t|);
      assert LinesFrom(t, p) == [(p, e)] + ls;
      assert forall i :: 0 <= i < |ls| ==> ls[i].0 == ss[i];
    }
  }

  /** Concatenating all lines gives back the text. */
  function Joined(t: seq<Byte>, ls: seq<Span>): seq<Byte>
    requires forall i :: 0 <= i < |ls| ==> ls[i].0 <= ls[i].1 <= |t|
  {
    if ls == [] then [] else LineBytes(t, ls[0]) + Joined(t, ls[1..])
  }

  lemma {:induction false} JoinedLines(t: seq<Byte>, p: nat)
    requires p == |t| || IsStart(t, p)
    ensures forall i :: 0 <= i < |LinesFrom(t, p)| ==> LinesFrom(t, p)[i].0 <= LinesFrom(t, p)[i].1 <= |t|
    ensures Joined(t, LinesFrom(t, p)) == t[p..]
    decreases |t| - p
  {
    LinesTile(t, p);
    if p < |t| {
      var e := LineEnd(t, p);
      JoinedLines(t, e);
      assert LinesFrom(t, p)[1..] == LinesFrom(t, e);
      assert t[p..] == t[p..e] + t[e..];
    }
  }

  lemma {:induction false} ZeroStarts(t: seq<Byte>)
    ensures 0 == |t| || IsStart(t, 0)
  {
  }

  lemma {:induction false} LinesFromStep(t: seq<Byte>, ls: seq<Span>, p: nat)
    requires p < |t|
    ensures ls + LinesFrom(t, p) == ls + [(p, LineEnd(t, p))] + LinesFrom(t, LineEnd(t, p))
    ensures LineEnd(t, p) == |t| || IsStart(t, LineEnd(t, p))
  {
  }

  predicate NoLf(t: seq<Byte>, a: nat, b: nat) { forall i :: a <= i < b && i < |t| ==> t[i] != LF }

  /** Every position from `p` on lies in some line. */
  lemma {:induction false} LineOfPosition(t: seq<Byte>, p: nat, a: nat) returns (i: nat)
    requires p <= a < |t|
    ensures i < |LinesFrom(t, p)| && LinesFrom(t, p)[i].0 <= a < LinesFrom(t, p)[i].1
    decreases |t| - p
  {
    var e := LineEnd(t, p);
    if a < e {
      i := 0;
    } else {
      var j := LineOfPosition(t, e, a);
      i := j + 1;
      assert LinesFrom(t, p) == [(p, e)] + LinesFrom(t, e);
    }
  }

  // ----- starts inside one decoded chunk -----

  predicate IsLocalStart(decoded: seq<Byte>, continues: bool, p: int) {
    0 <= p < |decoded| && if p == 0 then !continues else decoded[p - 1] == LF
  }

  /** Line starts of a chunk seen alone, given whether it continues a line. */
  function LocalStarts(decoded: seq<Byte>, continues: bool, n: nat): (s: seq<nat>)
    ensures |s| <= n
    ensures forall i :: 0 <= i < |s| ==> s[i] < n && s[i] < |decoded|
    ensures forall i, j :: 0 <= i < j < |s| ==> s[i] < s[j]
  {
    if n == 0 then []
    else LocalStarts(decoded, continues, n - 1) + (if IsLocalStart(decoded, continues, n - 1) then [n - 1] else [])
  }

  /** Seen alone with the right flag, a chunk has the text's line starts, shifted. */
  lemma {:induction false} LocalStartsShift(t: seq<Byte>, off: nat, end: nat, n: nat)
    requires off + n <= end <= |t|
    ensures var continues := off > 0 && t[off - 1] != LF;
            var local := LocalStarts(t[off..end], continues, n); var global := Starts(t, off, off + n);
            |local| == |global| && forall i :: 0 <= i < |local| ==> global[i] == off + local[i]
  {
    if n > 0 {
      LocalStartsShift(t, off, end, n - 1);
      LocalStartIs(t, off, end, n - 1);
      hide IsLocalStart, IsStart;
    }
  }

  lemma {:induction false} LocalStartIs(t: seq<Byte>, off: nat, end: nat, i: nat)
    requires off + i < end <= |t|
    ensures IsLocalStart(t[off..end], off > 0 && t[off - 1] != LF, i) == IsStart(t, off + i)
  {
    assert i > 0 ==> t[off..end][i - 1] == t[off + i - 1];
  }

  /** `local_line_starts` and `line_start_offsets`: the same loop in the reader and the dense index. */
  method LocalLineStarts(decoded: seq<Byte>, continues: bool) returns (starts: seq<nat>)
    ensures starts == LocalStarts(decoded, continues, |decoded|)
  {
    starts := [];
    if !continues && decoded != [] { starts := [0]; }
    assert decoded != [] ==> LocalStarts(decoded, continues, 1) == LocalStarts(decoded, continues, 0) + starts;
    for index := 0 to |decoded|
      invariant starts == LocalStarts(decoded, continues, Min(index + 1, |decoded|))
    {
      if decoded[index] == LF && index + 1 < |decoded| { starts := starts + [index + 1]; }
    }
  }
}
