/**
 * What a verified token span means in the original text, for any granule, and
 * that whole-line granules miss nothing.
 */
module TokenMeaning {
  import opened Bytes
  import opened Lines
  import opened KeySets
  import opened Tokens
  import opened TokenMatch

  /** No line break separates the two positions. */
  predicate OneLine(t: seq<Byte>, p: nat, q: nat)
    requires p <= |t| && q <= |t|
  {
    forall i :: Min(p, q) <= i < Max(p, q) ==> t[i] != LF
  }

  /** `[c, d)` is a token equal to `k` up to ASCII case, on the line of position `a`. */
  predicate KeyOnLine(t: seq<Byte>, a: nat, k: Key, c: nat, d: nat) {
    IsRun(t, c, d) && a <= |t| && OneLine(t, a, c) && Folded(t[c..d]) == Folded(k)
  }

  ghost predicate LineHolds(t: seq<Byte>, a: nat, k: Key) {
    exists c: nat, d: nat :: KeyOnLine(t, a, k, c, d)
  }

  /** The plain-scan meaning of a hit: a token equal to some key, on a line holding every key. */
  ghost predicate TextHit(t: seq<Byte>, keys: seq<Key>, a: nat, b: nat) {
    && IsRun(t, a, b)
    && (exists k :: 0 <= k < |keys| && Folded(t[a..b]) == Folded(keys[k]))
    && forall k :: 0 <= k < |keys| ==> LineHolds(t, a, keys[k])
  }

  // ----- runs of a slice -----

  lemma {:induction false} RunOfSlice(t: seq<Byte>, lo: nat, hi: nat, a: nat, b: nat)
    requires lo <= a <= b <= hi <= |t|
    requires IsRun(t[lo..hi], a - lo, b - lo)
    requires a == lo ==> !TokenAt(t, lo - 1)
    requires b == hi ==> !TokenAt(t, hi)
    ensures IsRun(t, a, b)
  {
    var s := t[lo..hi];
    forall i | a <= i < b ensures TokenAt(t, i) { assert TokenAt(s, i - lo); }
    assert a > lo ==> (!TokenAt(s, a - 1 - lo) && s[a - 1 - lo] == t[a - 1]);
    assert b < hi ==> (!TokenAt(s, b - lo) && s[b - lo] == t[b]);
  }

  lemma {:induction false} SliceOfRun(t: seq<Byte>, lo: nat, hi: nat, a: nat, b: nat)
    requires lo <= a <= b <= hi <= |t| && IsRun(t, a, b)
    ensures IsRun(t[lo..hi], a - lo, b - lo)
  {
    var s := t[lo..hi];
    forall i | a - lo <= i < b - lo ensures TokenAt(s, i) { assert TokenAt(t, lo + i); }
    assert a > lo ==> s[a - 1 - lo] == t[a - 1];
    assert b < hi ==> s[b - lo] == t[b];
  }

  // ----- matches of one line -----

  predicate IsMatch(line: seq<Byte>, keys: seq<Key>, left: bool, right: bool, m: Match) {
    && IsRun(line, m.start, m.end)
    && !CutOff(|line|, m.start, m.end, left, right)
    && m.key < |keys|
    && Folded(keys[m.key]) == Folded(line[m.start..m.end])
  }

  predicate AllMatches(line: seq<Byte>, keys: seq<Key>, left: bool, right: bool, ms: seq<Match>) {
    forall m :: m in ms ==> IsMatch(line, keys, left, right, m)
  }

  /** Matches from `p` on, in text order. */
  predicate InOrder(ms: seq<Match>, p: int) {
    && (forall i :: 0 <= i < |ms| ==> p <= ms[i].start < ms[i].end)
    && (forall i, j :: 0 <= i < j < |ms| ==> ms[i].end <= ms[j].start)
  }

  lemma {:induction false} LineMatchesSound(line: seq<Byte>, keys: seq<Key>, left: bool, right: bool, p: nat)
    requires p <= |line| && !TokenAt(line, p - 1)
    ensures AllMatches(line, keys, left, right, LineMatches(line, keys, left, right, p))
    ensures InOrder(LineMatches(line, keys, left, right, p), p)
    decreases |line| - p
  {
    hide *;
    LineMatchesStep(line, keys, left, right, p);
    RunProgress(line, p);
    var s := RunStart(line, p);
    var e := RunEnd(line, s);
    LineMatchesEnd(line, keys, left, right, |line|);
    NoMatches(line, keys, left, right, p);
    if s < |line| {
      ScannedRun(line, p);
      MatchOfCases(line, keys, left, right, s, e);
      var here, rest := MatchOf(line, keys, left, right, s, e), LineMatches(line, keys, left, right, e);
      if e < |line| {
        AfterMatches(line, keys, left, right, e);
        LineMatchesSound(line, keys, left, right, e + 1);
        MoreMatches(line, keys, left, right, p, s, e, here, rest);
      } else {
        NoMatches(line, keys, left, right, e + 1);
        MoreMatches(line, keys, left, right, p, s, e, here, rest);
      }
    }
  }

  lemma {:induction false} NoMatches(line: seq<Byte>, keys: seq<Key>, left: bool, right: bool, p: nat)
    ensures AllMatches(line, keys, left, right, []) && InOrder([], p)
    ensures forall ms: seq<Match> :: ms + [] == ms && [] + ms == ms
  {
  }

  lemma {:induction false} AfterMatches(line: seq<Byte>, keys: seq<Key>, left: bool, right: bool, e: nat)
    requires e < |line| && !TokenAt(line, e)
    ensures LineMatches(line, keys, left, right, e) == LineMatches(line, keys, left, right, e + 1)
  {
  }

  lemma {:induction false} MoreMatches(line: seq<Byte>, keys: seq<Key>, left: bool, right: bool, p: nat, s: nat, e: nat, here: seq<Match>, rest: seq<Match>)
    requires p <= s < e <= |line| && IsRun(line, s, e)
    requires if CutOff(|line|, s, e, left, right) || KeyIndex(keys, line[s..e]).None? then here == []
             else here == [Match(KeyIndex(keys, line[s..e]).value, s, e)]
    requires AllMatches(line, keys, left, right, rest) && InOrder(rest, e + 1)
    ensures AllMatches(line, keys, left, right, here + rest) && InOrder(here + rest, p)
  {
    hide IsRun, CutOff, Folded;
    assert here != [] ==> IsMatch(line, keys, left, right, here[0]);
  }

  /** A token of the line that equals a key and is not cut off is found. */
  lemma {:induction false} LineMatchesComplete(line: seq<Byte>, keys: seq<Key>, left: bool, right: bool, p: nat, a: nat, b: nat)
    requires p <= a && IsRun(line, a, b) && a <= b <= |line| && !CutOff(|line|, a, b, left, right)
    requires KeyIndex(keys, line[a..b]).Some?
    ensures Match(KeyIndex(keys, line[a..b]).value, a, b) in LineMatches(line, keys, left, right, p)
    decreases |line| - p
  {
    hide *;
    FirstRun(line, p, a, b);
    LineMatchesStep(line, keys, left, right, p);
    var s := RunStart(line, p);
    var e := RunEnd(line, s);
    if a == s {
      MatchOfCases(line, keys, left, right, s, e);
    } else {
      AfterMatches(line, keys, left, right, e);
      LineMatchesComplete(line, keys, left, right, e + 1, a, b);
    }
  }

  /** Every key of a reported line has a token on it. */
  lemma {:induction false} LineHoldsKeys(line: seq<Byte>, keys: seq<Key>, left: bool, right: bool, m: Match, k: nat) returns (w: Match)
    requires m in LineSpans(line, keys, left, right) && k < |keys|
    ensures IsMatch(line, keys, left, right, m)
    ensures w.key == k && IsMatch(line, keys, left, right, w)
  {
    hide LineMatches, IsMatch;
    var ms := LineMatches(line, keys, left, right, 0);
    LineMatchesSound(line, keys, left, right, 0) by { BeforeStart(line); }
    assert k in SeenKeys(ms);
    w :| w in ms && w.key == k;
  }

  // ----- any granule is sound -----

  /** A granule `[g, e)` of the text with its boundary flags. */
  predicate Flags(t: seq<Byte>, g: nat, e: nat, left: bool, right: bool) {
    && g < e <= |t|
    && left == TokenAt(t, g - 1)
    && (TokenAt(t, e - 1) ==> right == TokenAt(t, e))
  }

  /** A span comes from one line of the granule. */
  lemma {:induction false} SpanLine(bytes: seq<Byte>, keys: seq<Key>, left: bool, right: bool, p: nat, m: Match) returns (ls: nat, lm: Match)
    requires m in GranuleSpans(bytes, keys, left, right, p) && (p == 0 || p >= |bytes| || IsStart(bytes, p))
    ensures ls < |bytes| && (ls == 0 || IsStart(bytes, ls)) && p <= ls
    ensures var le := LineEnd(bytes, ls);
            && lm in LineSpans(bytes[ls..le], keys, ls == 0 && left, le == |bytes| && right)
            && m == Match(lm.key, lm.start + ls, lm.end + ls)
    decreases |bytes| - p
  {
    hide LineSpans;
    if p < |bytes| {
      var le := LineEnd(bytes, p);
      var line := LineSpans(bytes[p..le], keys, p == 0 && left, le == |bytes| && right);
      if m in Shift(line, p) {
        var i :| 0 <= i < |line| && Shift(line, p)[i] == m;
        ls, lm := p, line[i];
      } else {
        ls, lm := SpanLine(bytes, keys, left, right, le, m);
      }
    }
  }

  /** A token of one line of a granule, not cut off, is a token of the text. */
  lemma {:induction false} TokenOfLine(t: seq<Byte>, g: nat, e: nat, left: bool, right: bool, ls: nat, m: Match, keys: seq<Key>)
    requires Flags(t, g, e, left, right)
    requires ls < e - g && (ls == 0 || IsStart(t[g..e], ls))
    requires var bytes := t[g..e]; var le := LineEnd(bytes, ls);
             IsMatch(bytes[ls..le], keys, ls == 0 && left, le == |bytes| && right, m)
    ensures var le := LineEnd(t[g..e], ls);
            && m.start < m.end <= le - ls
            && IsRun(t, g + ls + m.start, g + ls + m.end)
            && Folded(t[g + ls + m.start..g + ls + m.end]) == Folded(keys[m.key])
  {
    hide *;
    FlagsOpen(t, g, e, left, right);
    var bytes := t[g..e];
    var le := LineEnd(bytes, ls);
    var line := bytes[ls..le];
    MatchParts(line, keys, ls == 0 && left, le == |bytes| && right, m);
    SliceOfSlice(t, g, e, g + ls, g + le);
    assert line == t[g + ls..g + le];
    if m.start == 0 { LeftEdge(t, g, e, left, right, ls); }
    if m.end == |line| { RightEdge(t, g, e, left, right, ls); }
    RunOfSlice(t, g + ls, g + le, g + ls + m.start, g + ls + m.end);
    SliceOfSlice(t, g + ls, g + le, g + ls + m.start, g + ls + m.end);
  }

  lemma {:induction false} MatchParts(line: seq<Byte>, keys: seq<Key>, left: bool, right: bool, m: Match)
    requires IsMatch(line, keys, left, right, m)
    ensures m.start < m.end <= |line| && IsRun(line, m.start, m.end)
    ensures m.key < |keys| && Folded(keys[m.key]) == Folded(line[m.start..m.end])
    ensures m.start == 0 ==> !left
    ensures m.end == |line| ==> !right && TokenAt(line, |line| - 1)
  {
    hide Folded;
    assert m.start < m.end ==> TokenAt(line, m.end - 1);
  }

  /** A line that starts inside the granule follows a line break. */
  lemma {:induction false} LeftEdge(t: seq<Byte>, g: nat, e: nat, left: bool, right: bool, ls: nat)
    requires Flags(t, g, e, left, right) && ls < e - g && (ls == 0 || IsStart(t[g..e], ls)) && !(ls == 0 && left)
    ensures !TokenAt(t, g + ls - 1)
  {
    if ls > 0 { assert t[g..e][ls - 1] == t[g + ls - 1]; }
  }

  /** A line that ends in a token byte ends the granule. */
  lemma {:induction false} RightEdge(t: seq<Byte>, g: nat, e: nat, left: bool, right: bool, ls: nat)
    requires Flags(t, g, e, left, right) && ls < e - g
    requires var le := LineEnd(t[g..e], ls); !(le == e - g && right) && TokenAt(t[g..e][ls..le], le - ls - 1)
    ensures !TokenAt(t, g + LineEnd(t[g..e], ls))
  {
    var bytes := t[g..e];
    var le := LineEnd(bytes, ls);
    assert bytes[ls..le][le - ls - 1] == bytes[le - 1] == t[g + le - 1];
    assert le == e - g;
  }

  /** Soundness against any granule: a verified span is a hit of the plain scan of the text. */
  lemma {:induction false} GranuleSpanIsHit(t: seq<Byte>, g: nat, e: nat, keys: seq<Key>, left: bool, right: bool, m: Match)
    requires Flags(t, g, e, left, right) && m in GranuleSpans(t[g..e], keys, left, right, 0)
    ensures TextHit(t, keys, g + m.start, g + m.end)
    ensures g + m.start < g + m.end <= e
  {
    hide *;
    FlagsOpen(t, g, e, left, right);
    var bytes := t[g..e];
    var ls, lm := SpanLine(bytes, keys, left, right, 0, m);
    if |keys| == 0 {
      NoKeysNoSpans(bytes[ls..LineEnd(bytes, ls)], keys, ls == 0 && left, LineEnd(bytes, ls) == |bytes| && right, lm);
    } else {
      var le := LineEnd(bytes, ls);
      var w := LineHoldsKeys(bytes[ls..le], keys, ls == 0 && left, le == |bytes| && right, lm, 0);
      TokenOfLine(t, g, e, left, right, ls, lm, keys);
      forall k | 0 <= k < |keys| ensures LineHolds(t, g + m.start, keys[k]) {
        var w := LineHoldsKeys(bytes[ls..le], keys, ls == 0 && left, le == |bytes| && right, lm, k);
        TokenOfLine(t, g, e, left, right, ls, w, keys);
        LineHasNoLf(t, g, e, ls, lm.start, w.start);
        KeyOnLineHolds(t, g + m.start, keys[k], g + ls + w.start, g + ls + w.end);
      }
      MatchKey(bytes[ls..le], keys, ls == 0 && left, le == |bytes| && right, lm);
      TextHitHolds(t, keys, g + m.start, g + m.end, lm.key);
    }
  }

  lemma {:induction false} FlagsOpen(t: seq<Byte>, g: nat, e: nat, left: bool, right: bool)
    requires Flags(t, g, e, left, right)
    ensures g < e <= |t|
  {
  }

  lemma {:induction false} MatchKey(line: seq<Byte>, keys: seq<Key>, left: bool, right: bool, m: Match)
    requires IsMatch(line, keys, left, right, m)
    ensures m.key < |keys|
  {
  }

  lemma {:induction false} NoKeysNoSpans(line: seq<Byte>, keys: seq<Key>, left: bool, right: bool, m: Match)
    requires |keys| == 0
    ensures m !in LineSpans(line, keys, left, right)
  {
    LineMatchesSound(line, keys, left, right, 0);
    assert m in LineMatches(line, keys, left, right, 0) ==> IsMatch(line, keys, left, right, m);
  }

  lemma {:induction false} KeyOnLineHolds(t: seq<Byte>, a: nat, k: Key, c: nat, d: nat)
    requires IsRun(t, c, d) && a <= |t| && c <= d <= |t| && OneLine(t, a, c) && Folded(t[c..d]) == Folded(k)
    ensures LineHolds(t, a, k)
  {
    hide IsRun, OneLine, Folded;
    assert KeyOnLine(t, a, k, c, d);
  }

  lemma {:induction false} TextHitHolds(t: seq<Byte>, keys: seq<Key>, a: nat, b: nat, k: nat)
    requires IsRun(t, a, b) && a <= b <= |t| && k < |keys| && Folded(t[a..b]) == Folded(keys[k])
    requires forall k :: 0 <= k < |keys| ==> LineHolds(t, a, keys[k])
    ensures TextHit(t, keys, a, b)
  {
    hide IsRun, LineHolds, Folded;
  }

  lemma {:induction false} LineHasNoLf(t: seq<Byte>, g: nat, e: nat, ls: nat, x: nat, y: nat)
    requires g < e <= |t| && ls < e - g
    requires x < LineEnd(t[g..e], ls) - ls && y < LineEnd(t[g..e], ls) - ls
    ensures OneLine(t, g + ls + x, g + ls + y)
  {
    var bytes := t[g..e];
    forall i | Min(g + ls + x, g + ls + y) <= i < Max(g + ls + x, g + ls + y) ensures t[i] != LF {
      assert bytes[i - g] == t[i];
    }
  }

  // ----- a whole-line granule is complete -----

  /** Query keys that differ even up to case. */
  predicate FoldedDistinct(keys: seq<Key>) {
    forall i, j :: 0 <= i < j < |keys| ==> Folded(keys[i]) != Folded(keys[j])
  }

  lemma {:induction false} KeyIndexIs(keys: seq<Key>, token: seq<Byte>, k: nat)
    requires FoldedDistinct(keys) && k < |keys| && Folded(token) == Folded(keys[k])
    ensures KeyIndex(keys, token) == Some(k)
  {
    hide Folded;
  }

  /** A token on the line of a position inside line `l` lies inside `l`. */
  lemma {:induction false} TokenInLine(t: seq<Byte>, l: Span, a: nat, c: nat, d: nat)
    requires IsLine(t, l) && l.0 <= a < l.1 && IsRun(t, c, d) && OneLine(t, a, c)
    ensures l.0 <= c < d <= l.1
  {
    assert l.0 > 0 ==> t[l.0 - 1] == LF;
    assert l.1 < |t| ==> t[l.1 - 1] == LF;
    assert TokenAt(t, c);
    assert c <= l.1 - 1 < d ==> TokenAt(t, l.1 - 1);
  }

  /** A token inside line `l` that equals a key is matched by the scan of the line alone. */
  lemma {:induction false} TokenMatched(t: seq<Byte>, l: Span, keys: seq<Key>, left: bool, right: bool, c: nat, d: nat, k: nat)
    requires IsLine(t, l) && Flags(t, l.0, l.1, left, right) && FoldedDistinct(keys)
    requires IsRun(t, c, d) && l.0 <= c < d <= l.1 && k < |keys| && Folded(t[c..d]) == Folded(keys[k])
    ensures Match(k, c - l.0, d - l.0) in LineMatches(t[l.0..l.1], keys, left, right, 0)
  {
    hide *;
    FlagsOpen(t, l.0, l.1, left, right);
    var line := t[l.0..l.1];
    LineTokenWhole(t, l, left, right, c, d);
    SliceOfRun(t, l.0, l.1, c, d);
    SliceOfSlice(t, l.0, l.1, c, d);
    KeyIndexIs(keys, line[c - l.0..d - l.0], k);
    LineMatchesComplete(line, keys, left, right, 0, c - l.0, d - l.0);
  }

  lemma {:induction false} LineTokenWhole(t: seq<Byte>, l: Span, left: bool, right: bool, c: nat, d: nat)
    requires IsLine(t, l) && Flags(t, l.0, l.1, left, right) && IsRun(t, c, d) && l.0 <= c < d <= l.1
    ensures !CutOff(l.1 - l.0, c - l.0, d - l.0, left, right)
  {
    assert TokenAt(t, d - 1) && !TokenAt(t, d);
  }

  lemma {:induction false} WholeLine(t: seq<Byte>, l: Span, keys: seq<Key>, left: bool, right: bool)
    requires IsLine(t, l)
    ensures GranuleSpans(t[l.0..l.1], keys, left, right, 0) == LineSpans(t[l.0..l.1], keys, left, right)
  {
    hide LineSpans;
    var line := t[l.0..l.1];
    assert LineEnd(line, 0) == |line| by {
      var e := LineEnd(line, 0);
      assert line[e - 1] == t[l.0 + e - 1];
    }
    assert line[0..|line|] == line;
    GranuleSpansStep(line, keys, left, right, 0);
    GranuleSpansEnd(line, keys, left, right, |line|);
    assert Shift(LineSpans(line, keys, left, right), 0) == LineSpans(line, keys, left, right);
  }

  /** Every plain-scan hit on a line is among the spans of that line's granule. */
  lemma {:induction false} LineGranuleComplete(t: seq<Byte>, l: Span, keys: seq<Key>, left: bool, right: bool, a: nat, b: nat) returns (m: Match)
    requires IsLine(t, l) && Flags(t, l.0, l.1, left, right) && FoldedDistinct(keys)
    requires l.0 <= a < l.1 && TextHit(t, keys, a, b)
    ensures m in GranuleSpans(t[l.0..l.1], keys, left, right, 0) && m.start == a - l.0 && m.end == b - l.0
  {
    hide *;
    FlagsOpen(t, l.0, l.1, left, right);
    WholeLine(t, l, keys, left, right);
    LineSpansCases(t[l.0..l.1], keys, left, right);
    var ms := LineMatches(t[l.0..l.1], keys, left, right, 0);
    forall k | 0 <= k < |keys| ensures HasKey(ms, k) {
      var c, d := HeldKey(t, keys, a, b, k);
      TokenInLine(t, l, a, c, d);
      TokenMatched(t, l, keys, left, right, c, d, k);
      HasKeyAt(ms, Match(k, c - l.0, d - l.0));
    }
    AllKeysSeen(ms, |keys|);
    var k := HitKey(t, keys, a, b);
    SelfLine(t, a);
    TokenInLine(t, l, a, a, b);
    TokenMatched(t, l, keys, left, right, a, b, k);
    m := Match(k, a - l.0, b - l.0);
  }

  ghost predicate HasKey(ms: seq<Match>, k: nat) { exists m :: m in ms && m.key == k }

  lemma {:induction false} HasKeyAt(ms: seq<Match>, m: Match)
    requires m in ms
    ensures HasKey(ms, m.key)
  {
  }

  lemma {:induction false} AllKeysSeen(ms: seq<Match>, n: nat)
    requires forall k :: 0 <= k < n ==> HasKey(ms, k)
    ensures AllSeen(ms, n)
  {
    forall k | 0 <= k < n ensures k in SeenKeys(ms) { assert HasKey(ms, k); }
  }

  lemma {:induction false} SelfLine(t: seq<Byte>, a: nat)
    requires a <= |t|
    ensures OneLine(t, a, a)
  {
  }

  lemma {:induction false} HitKey(t: seq<Byte>, keys: seq<Key>, a: nat, b: nat) returns (k: nat)
    requires TextHit(t, keys, a, b)
    ensures IsRun(t, a, b) && a <= b <= |t| && k < |keys| && Folded(t[a..b]) == Folded(keys[k])
  {
    hide LineHolds, Folded;
    k :| 0 <= k < |keys| && Folded(t[a..b]) == Folded(keys[k]);
  }

  lemma {:induction false} HeldKey(t: seq<Byte>, keys: seq<Key>, a: nat, b: nat, k: nat) returns (c: nat, d: nat)
    requires TextHit(t, keys, a, b) && k < |keys|
    ensures a <= |t| && IsRun(t, c, d) && c <= d <= |t| && OneLine(t, a, c) && Folded(t[c..d]) == Folded(keys[k])
  {
    hide Folded;
    assert LineHolds(t, a, keys[k]);
    c, d :| KeyOnLine(t, a, keys[k], c, d);
  }

  /** The spans of a line's granule are in text order. */
  lemma {:induction false} LineGranuleOrdered(t: seq<Byte>, l: Span, keys: seq<Key>, left: bool, right: bool)
    requires IsLine(t, l)
    ensures InOrder(GranuleSpans(t[l.0..l.1], keys, left, right, 0), 0)
  {
    hide LineMatches, GranuleSpans;
    WholeLine(t, l, keys, left, right);
    LineMatchesSound(t[l.0..l.1], keys, left, right, 0);
  }
}
