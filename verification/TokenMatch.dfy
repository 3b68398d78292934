/**
 * Verification of a token query against decoded bytes: per line, the tokens that
 * equal a query key, reported only when the line holds every query key.
 */
module TokenMatch {
  import opened Bytes
  import opened Lines
  import opened KeySets
  import opened Tokens

  datatype Match = Match(key: nat, start: nat, end: nat)

  function Take<T>(s: seq<T>, n: nat): (r: seq<T>) { if |s| <= n then s else s[..n] }

  lemma {:induction false} TakeConcat<T>(a: seq<T>, b: seq<T>, n: nat)
    requires |a| <= n
    ensures Take(a + b, n) == a + Take(b, n - |a|)
  {
  }

  lemma {:induction false} TakeShort<T>(a: seq<T>, b: seq<T>, n: nat)
    requires n <= |Take(a, n)|
    ensures Take(a + b, n) == Take(a, n)
  {
  }

  /** First query key equal to the token up to ASCII case. */
  function KeyIndex(keys: seq<Key>, token: seq<Byte>, from: nat := 0): (r: Option<nat>)
    requires from <= |keys|
    ensures r.Some? ==> from <= r.value < |keys| && Folded(keys[r.value]) == Folded(token)
    ensures r.None? ==> forall k :: from <= k < |keys| ==> Folded(keys[k]) != Folded(token)
    decreases |keys| - from
  {
    if from == |keys| then None else if Folded(keys[from]) == Folded(token) then Some(from) else KeyIndex(keys, token, from + 1)
  }

  /** A run that may continue outside the decoded bytes is no token. */
  predicate CutOff(size: nat, start: nat, end: nat, left: bool, right: bool) {
    (start == 0 && left) || (end == size && right)
  }

  /** What one run contributes. */
  function MatchOf(line: seq<Byte>, keys: seq<Key>, left: bool, right: bool, s: nat, e: nat): seq<Match>
    requires s <= e <= |line|
  {
    if CutOff(|line|, s, e, left, right) then []
    else match KeyIndex(keys, line[s..e])
      case None => []
      case Some(k) => [Match(k, s, e)]
  }

  function LineMatches(line: seq<Byte>, keys: seq<Key>, left: bool, right: bool, p: nat): (ms: seq<Match>)
    requires p <= |line|
    decreases |line| - p
  {
    var s := RunStart(line, p);
    if s == |line| then []
    else MatchOf(line, keys, left, right, s, RunEnd(line, s)) + LineMatches(line, keys, left, right, RunEnd(line, s))
  }

  function SeenKeys(ms: seq<Match>): set<nat> { set m | m in ms :: m.key }

  predicate AllSeen(ms: seq<Match>, n: nat) { forall k :: 0 <= k < n ==> k in SeenKeys(ms) }

  /** The matches of a line that holds every key. */
  function LineSpans(line: seq<Byte>, keys: seq<Key>, left: bool, right: bool): seq<Match> {
    var ms := LineMatches(line, keys, left, right, 0);
    if AllSeen(ms, |keys|) then ms else []
  }

  function Shift(ms: seq<Match>, d: nat): (r: seq<Match>)
    ensures |r| == |ms|
    ensures forall i :: 0 <= i < |ms| ==> r[i] == Match(ms[i].key, ms[i].start + d, ms[i].end + d)
  {
    seq(|ms|, i requires 0 <= i < |ms| => Match(ms[i].key, ms[i].start + d, ms[i].end + d))
  }

  /** The matches of all lines of a granule from offset `p` on. */
  function GranuleSpans(bytes: seq<Byte>, keys: seq<Key>, left: bool, right: bool, p: nat): seq<Match>
    decreases |bytes| - p
  {
    if p >= |bytes| then []
    else
      var e := LineEnd(bytes, p);
      Shift(LineSpans(bytes[p..e], keys, p == 0 && left, e == |bytes| && right), p) + GranuleSpans(bytes, keys, left, right, e)
  }

  // ----- the scanning loops -----

  lemma {:induction false} FullSet(s: set<nat>, n: nat)
    requires forall x :: x in s ==> x < n
    ensures |s| <= n
    ensures |s| == n <==> forall k :: 0 <= k < n ==> k in s
    decreases n
  {
    if n > 0 {
      var rest := s - {n - 1};
      FullSet(rest, n - 1);
      if n - 1 in s { assert s == rest + {n - 1}; } else { assert rest == s; }
    } else {
      assert s == {};
    }
  }

  lemma {:induction false} SeenKeysConcat(a: seq<Match>, b: seq<Match>)
    ensures SeenKeys(a + b) == SeenKeys(a) + SeenKeys(b)
  {
    assert forall m :: m in a + b <==> m in a || m in b;
  }

  lemma {:induction false} SeenKeysSnoc(a: seq<Match>, m: Match)
    ensures SeenKeys(a + [m]) == SeenKeys(a) + {m.key}
  {
    SeenKeysConcat(a, [m]);
    assert SeenKeys([m]) == {m.key};
  }

  class LineMatchScratch {
    var seen: seq<U64>
    var generation: U64
    var matches: seq<Match>

    constructor (n: nat)
      ensures |seen| == n && generation == 0 && (forall i :: 0 <= i < n ==> seen[i] == 0) && matches == []
    {
      seen, generation, matches := seq(n, _ => 0), 0, [];
    }

    /** A key counts as seen on this line when it carries the current generation. */
    ghost predicate Marks(s: set<nat>)
      reads this
    {
      forall i :: 0 <= i < |seen| ==> seen[i] <= generation && (seen[i] == generation <==> i in s)
    }

    /** State after the matches `done` of a line: their keys are marked and counted, the first `limit` kept. */
    ghost predicate Tracks(done: seq<Match>, n: nat, seenCount: nat, limit: nat)
      reads this
    {
      && |seen| == n
      && (forall k :: k in SeenKeys(done) ==> k < n)
      && Marks(SeenKeys(done))
      && seenCount == |SeenKeys(done)|
      && matches == Take(done, limit)
    }

    method Record(m: Match, limit: nat, seenCount: nat, ghost done: seq<Match>) returns (count: nat)
      requires m.key < |seen| && Tracks(done, |seen|, seenCount, limit)
      modifies this
      ensures Tracks(done + [m], old(|seen|), count, limit)
    {
      hide SeenKeys;
      count := seenCount;
      SeenKeysSnoc(done, m);
      if seen[m.key] != generation {
        seen := seen[m.key := generation];
        count := count + 1;
      } else {
        assert SeenKeys(done + [m]) == SeenKeys(done);
      }
      if |matches| < limit { matches := matches + [m]; }
    }

    /** Start a line: nothing is marked, also when the counter wraps around. */
    method NextLine()
      requires forall i :: 0 <= i < |seen| ==> seen[i] <= generation
      modifies this
      ensures Marks({}) && matches == [] && |seen| == old(|seen|)
    {
      generation := (generation + 1) % (U64_MAX + 1);
      if generation == 0 {
        seen := seq(|seen|, _ => 0);
        generation := 1;
      }
      matches := [];
    }
  }

  /** One line: whether it holds every key, and its first `limit` matches. */
  method VerifiedLineSpans(line: seq<Byte>, keys: seq<Key>, limit: nat, left: bool, right: bool, scratch: LineMatchScratch)
    returns (complete: bool)
    requires |scratch.seen| == |keys| && scratch.Marks({}) && scratch.matches == []
    modifies scratch
    ensures |scratch.seen| == |keys| && forall i :: 0 <= i < |keys| ==> scratch.seen[i] <= scratch.generation
    ensures complete == AllSeen(LineMatches(line, keys, left, right, 0), |keys|)
    ensures scratch.matches == Take(LineMatches(line, keys, left, right, 0), limit)
  {
    hide LineMatches, MatchOf, Folded, RunStart, RunEnd, Take, AllSeen, CutOff, KeyIndex;
    hide LineMatchScratch.Tracks, LineMatchScratch.Marks;
    var seenCount := 0;
    var cursor := 0;
    ghost var all := LineMatches(line, keys, left, right, 0);
    ghost var done: seq<Match> := [];
    StartsTracking(scratch, |keys|, limit);
    while cursor < |line|
      invariant cursor <= |line| && scratch.Tracks(done, |keys|, seenCount, limit)
      invariant done + LineMatches(line, keys, left, right, cursor) == all
      decreases |line| - cursor
    {
      TracksSize(scratch, done, |keys|, seenCount, limit);
      var start, end := NextRun(line, cursor);
      LineMatchesStep(line, keys, left, right, cursor);
      RunProgress(line, cursor);
      ghost var rest := LineMatches(line, keys, left, right, end);
      cursor := end;
      if start == end { continue; }
      MatchOfCases(line, keys, left, right, start, end);
      var found := KeyIndex(keys, line[start..end]);
      if CutOff(|line|, start, end, left, right) || found.None? { continue; }
      var m := Match(found.value, start, end);
      assert all == (done + [m]) + rest;
      seenCount := scratch.Record(m, limit, seenCount, done);
      done := done + [m];
      if |scratch.matches| == limit && seenCount == |keys| {
        TrackedEnough(scratch, done, rest, |keys|, seenCount, limit);
        return true;
      }
    }
    LineMatchesEnd(line, keys, left, right, cursor);
    assert done == all;
    TrackedAll(scratch, done, |keys|, seenCount, limit);
    return seenCount == |keys|;
  }

  lemma {:induction false} StartsTracking(scratch: LineMatchScratch, n: nat, limit: nat)
    requires |scratch.seen| == n && scratch.Marks({}) && scratch.matches == []
    ensures scratch.Tracks([], n, 0, limit)
  {
    assert SeenKeys([]) == {};
  }

  lemma {:induction false} TracksSize(scratch: LineMatchScratch, done: seq<Match>, n: nat, seenCount: nat, limit: nat)
    requires scratch.Tracks(done, n, seenCount, limit)
    ensures |scratch.seen| == n
  {
  }

  lemma {:induction false} TrackedAll(scratch: LineMatchScratch, done: seq<Match>, n: nat, seenCount: nat, limit: nat)
    requires scratch.Tracks(done, n, seenCount, limit)
    ensures |scratch.seen| == n && forall i :: 0 <= i < n ==> scratch.seen[i] <= scratch.generation
    ensures (seenCount == n) == AllSeen(done, n) && scratch.matches == Take(done, limit)
  {
    FullSet(SeenKeys(done), n);
  }

  /** Once every key is seen and the limit is reached, the rest of the line changes nothing. */
  lemma {:induction false} TrackedEnough(scratch: LineMatchScratch, done: seq<Match>, rest: seq<Match>, n: nat, seenCount: nat, limit: nat)
    requires scratch.Tracks(done, n, seenCount, limit) && |scratch.matches| == limit && seenCount == n
    ensures |scratch.seen| == n && forall i :: 0 <= i < n ==> scratch.seen[i] <= scratch.generation
    ensures AllSeen(done + rest, n) && scratch.matches == Take(done + rest, limit)
  {
    TrackedAll(scratch, done, n, seenCount, limit);
    TakeShort(done, rest, limit);
    SeenKeysConcat(done, rest);
  }

  lemma {:induction false} LineMatchesStep(line: seq<Byte>, keys: seq<Key>, left: bool, right: bool, p: nat)
    requires p <= |line|
    ensures var s := RunStart(line, p);
            LineMatches(line, keys, left, right, p)
            == (if s == |line| then [] else MatchOf(line, keys, left, right, s, RunEnd(line, s)))
               + LineMatches(line, keys, left, right, RunEnd(line, s))
  {
    if RunStart(line, p) == |line| { LineMatchesEnd(line, keys, left, right, |line|); }
  }

  lemma {:induction false} LineMatchesEnd(line: seq<Byte>, keys: seq<Key>, left: bool, right: bool, p: nat)
    requires p == |line|
    ensures LineMatches(line, keys, left, right, p) == []
  {
  }

  lemma {:induction false} MatchOfCases(line: seq<Byte>, keys: seq<Key>, left: bool, right: bool, s: nat, e: nat)
    requires s <= e <= |line|
    ensures var here := MatchOf(line, keys, left, right, s, e);
            if CutOff(|line|, s, e, left, right) || KeyIndex(keys, line[s..e]).None? then here == []
            else here == [Match(KeyIndex(keys, line[s..e]).value, s, e)]
  {
  }

  /** All lines of a granule, stopping at `limit` spans: the limited scan is a prefix of the full one. */
  method VerifiedSpans(bytes: seq<Byte>, keys: seq<Key>, limit: nat, left: bool, right: bool) returns (spans: seq<Match>)
    ensures spans == Take(GranuleSpans(bytes, keys, left, right, 0), limit)
  {
    hide *;
    var scratch := new LineMatchScratch(|keys|);
    spans := [];
    ghost var all := GranuleSpans(bytes, keys, left, right, 0);
    var lineStart := 0;
    while lineStart < |bytes|
      invariant lineStart <= |bytes| && fresh(scratch)
      invariant |scratch.seen| == |keys| && forall i :: 0 <= i < |keys| ==> scratch.seen[i] <= scratch.generation
      invariant |spans| <= limit && spans + GranuleSpans(bytes, keys, left, right, lineStart) == all
      decreases |bytes| - lineStart
    {
      var lineEnd := LineEnd(bytes, lineStart);
      var line := bytes[lineStart..lineEnd];
      if |spans| == limit { TakeConcat(spans, GranuleSpans(bytes, keys, left, right, lineStart), limit); TakeNone<Match>(GranuleSpans(bytes, keys, left, right, lineStart)); return; }
      var remaining := limit - |spans|;
      var leftHere, rightHere := lineStart == 0 && left, lineEnd == |bytes| && right;
      scratch.NextLine();
      var complete := VerifiedLineSpans(line, keys, remaining, leftHere, rightHere, scratch);
      GranuleSpansStep(bytes, keys, left, right, lineStart);
      LineSpansCases(line, keys, leftHere, rightHere);
      ghost var here := Shift(LineSpans(line, keys, leftHere, rightHere), lineStart);
      ghost var later := GranuleSpans(bytes, keys, left, right, lineEnd);
      var found := if complete then Shift(scratch.matches, lineStart) else [];
      ShiftTake(LineSpans(line, keys, leftHere, rightHere), lineStart, remaining);
      assert all == spans + (here + later);
      FoundHere(spans, here, later, found, limit);
      spans := spans + found;
      if |spans| == limit { return; }
      lineStart := lineEnd;
    }
    GranuleSpansEnd(bytes, keys, left, right, lineStart);
    TakeAll(spans, limit);
  }

  lemma {:induction false} TakeNone<T>(s: seq<T>)
    ensures Take(s, 0) == []
  {
  }

  lemma {:induction false} TakeAll<T>(s: seq<T>, n: nat)
    requires |s| <= n
    ensures Take(s, n) == s && s + [] == s
  {
  }

  lemma {:induction false} ShiftTake(ms: seq<Match>, d: nat, n: nat)
    ensures Shift(Take(ms, n), d) == Take(Shift(ms, d), n)
    ensures Take(Shift([], d), n) == []
  {
  }

  /** Appending the first matches of a line either reaches the limit or takes them all. */
  lemma {:induction false} FoundHere(before: seq<Match>, here: seq<Match>, later: seq<Match>, found: seq<Match>, limit: nat)
    requires |before| <= limit && found == Take(here, limit - |before|)
    ensures |before + found| <= limit
    ensures |before + found| == limit ==> before + found == Take(before + (here + later), limit)
    ensures |before + found| < limit ==> before + found + later == before + (here + later)
  {
    if |before + found| == limit {
      TakeConcat(before, here + later, limit);
      TakeShort(here, later, limit - |before|);
    } else {
      assert found == here;
    }
  }

  lemma {:induction false} GranuleSpansStep(bytes: seq<Byte>, keys: seq<Key>, left: bool, right: bool, p: nat)
    requires p < |bytes|
    ensures var e := LineEnd(bytes, p);
            GranuleSpans(bytes, keys, left, right, p)
            == Shift(LineSpans(bytes[p..e], keys, p == 0 && left, e == |bytes| && right), p) + GranuleSpans(bytes, keys, left, right, e)
  {
  }

  lemma {:induction false} GranuleSpansEnd(bytes: seq<Byte>, keys: seq<Key>, left: bool, right: bool, p: nat)
    requires p >= |bytes|
    ensures GranuleSpans(bytes, keys, left, right, p) == []
  {
  }

  lemma {:induction false} LineSpansCases(line: seq<Byte>, keys: seq<Key>, left: bool, right: bool)
    ensures var ms := LineMatches(line, keys, left, right, 0);
            LineSpans(line, keys, left, right) == if AllSeen(ms, |keys|) then ms else []
  {
  }
}
