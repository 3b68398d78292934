/** Tokens: maximal runs of token bytes, compared under ASCII case folding. */
module Tokens {
  import opened Bytes
  import opened Lines
  import opened KeySets

  /** ASCII letters and digits, underscore and hyphen. */
  predicate IsTokenByte(b: Byte) {
    48 <= b <= 57 || 65 <= b <= 90 || 97 <= b <= 122 || b == 95 || b == 45
  }

  function Fold(b: Byte): Byte { if 65 <= b <= 90 then b + 32 else b }

  /** ASCII lower case of every byte. */
  function Folded(s: seq<Byte>): (r: seq<Byte>)
    ensures |r| == |s|
  {
    seq(|s|, i requires 0 <= i < |s| => Fold(s[i]))
  }

  lemma {:induction false} FoldedTwice(s: seq<Byte>)
    ensures Folded(Folded(s)) == Folded(s)
  {
  }

  predicate TokenAt(t: seq<Byte>, i: int) { 0 <= i < |t| && IsTokenByte(t[i]) }

  /** A token: a run of token bytes that extends neither way. */
  predicate IsRun(t: seq<Byte>, a: int, b: int) {
    && 0 <= a < b <= |t|
    && (forall i :: a <= i < b ==> TokenAt(t, i))
    && !TokenAt(t, a - 1)
    && !TokenAt(t, b)
  }

  /** First token byte at or after `p`. */
  function RunStart(t: seq<Byte>, p: nat): (s: nat)
    requires p <= |t|
    ensures p <= s <= |t| && (s < |t| ==> TokenAt(t, s))
    ensures forall i :: p <= i < s ==> !TokenAt(t, i)
    decreases |t| - p
  {
    if p == |t| || TokenAt(t, p) then p else RunStart(t, p + 1)
  }

  /** First byte at or after `p` that is no token byte. */
  function RunEnd(t: seq<Byte>, p: nat): (e: nat)
    requires p <= |t|
    ensures p <= e <= |t| && !TokenAt(t, e)
    ensures forall i :: p <= i < e ==> TokenAt(t, i)
    decreases |t| - p
  {
    if p == |t| || !TokenAt(t, p) then p else RunEnd(t, p + 1)
  }

  /** The runs from `p` on, as the cursor loops find them. */
  function Runs(t: seq<Byte>, p: nat): (rs: seq<Span>)
    requires p <= |t|
    decreases |t| - p
  {
    var s := RunStart(t, p);
    if s == |t| then [] else [(s, RunEnd(t, s))] + Runs(t, RunEnd(t, s))
  }

  predicate AllRuns(t: seq<Byte>, rs: seq<Span>) {
    forall i :: 0 <= i < |rs| ==> IsRun(t, rs[i].0, rs[i].1)
  }

  /** Spans from `p` on, in order and apart. */
  predicate Ascending(rs: seq<Span>, p: int) {
    && (forall i :: 0 <= i < |rs| ==> p <= rs[i].0)
    && (forall i, j :: 0 <= i < j < |rs| ==> rs[i].1 < rs[j].0)
  }

  /** Runs are tokens, in text order. */
  lemma {:induction false} RunsSound(t: seq<Byte>, p: nat)
    requires p <= |t| && !TokenAt(t, p - 1)
    ensures AllRuns(t, Runs(t, p)) && Ascending(Runs(t, p), p)
    decreases |t| - p
  {
    hide *;
    RunsUnfold(t, p);
    var s := RunStart(t, p);
    if s < |t| {
      var e := RunEnd(t, s);
      ScannedRun(t, p);
      AfterRun(t, e);
      if e < |t| { RunsSound(t, e + 1); }
      ConsRun(t, p, s, e, Runs(t, e));
    } else {
      NoRuns(t, p);
    }
  }

  lemma {:induction false} RunsUnfold(t: seq<Byte>, p: nat)
    requires p <= |t|
    ensures Runs(t, p) == (var s := RunStart(t, p); if s == |t| then [] else [(s, RunEnd(t, s))] + Runs(t, RunEnd(t, s)))
  {
  }

  lemma {:induction false} NoRuns(t: seq<Byte>, p: nat)
    ensures AllRuns(t, []) && Ascending([], p)
  {
  }

  lemma {:induction false} ConsRun(t: seq<Byte>, p: nat, s: nat, e: nat, rest: seq<Span>)
    requires IsRun(t, s, e) && p <= s && e <= |t|
    requires rest == [] || (AllRuns(t, rest) && Ascending(rest, e + 1))
    ensures AllRuns(t, [(s, e)] + rest) && Ascending([(s, e)] + rest, p)
  {
    hide IsRun;
    assert s < e by { RunNonempty(t, s, e); }
  }

  lemma {:induction false} RunNonempty(t: seq<Byte>, s: nat, e: nat)
    requires IsRun(t, s, e)
    ensures s < e <= |t|
  {
  }

  /** No token is missed. */
  lemma {:induction false} RunsComplete(t: seq<Byte>, p: nat, a: nat, b: nat)
    requires p <= a && IsRun(t, a, b)
    ensures (a, b) in Runs(t, p)
    decreases |t| - p
  {
    hide *;
    FirstRun(t, p, a, b);
    RunsUnfold(t, p);
    var e := RunEnd(t, RunStart(t, p));
    if e < a {
      AfterRun(t, e);
      RunsComplete(t, e + 1, a, b);
    }
  }

  lemma {:induction false} ScannedRun(t: seq<Byte>, p: nat)
    requires p <= |t| && !TokenAt(t, p - 1) && RunStart(t, p) < |t|
    ensures IsRun(t, RunStart(t, p), RunEnd(t, RunStart(t, p)))
    ensures RunStart(t, p) < RunEnd(t, RunStart(t, p))
  {
  }

  lemma {:induction false} AfterRun(t: seq<Byte>, e: nat)
    requires e <= |t| && !TokenAt(t, e)
    ensures Runs(t, e) == if e < |t| then Runs(t, e + 1) else []
  {
  }

  lemma {:induction false} FirstRun(t: seq<Byte>, p: nat, a: nat, b: nat)
    requires p <= a && IsRun(t, a, b)
    ensures p <= a < |t| && RunStart(t, p) < |t|
    ensures var s := RunStart(t, p); var e := RunEnd(t, s);
            if a == s then b == e else e < a && e < |t|
  {
    assert TokenAt(t, a);
    var s := RunStart(t, p);
    var e := RunEnd(t, s);
    assert s <= b < e ==> TokenAt(t, b);
    assert a <= e < b ==> TokenAt(t, e);
    assert s < a <= e ==> TokenAt(t, a - 1);
  }

  // ----- keys of a text -----

  /** The folded tokens from `p` on. */
  function TokenKeys(t: seq<Byte>, p: nat): (ks: seq<Key>)
    requires p <= |t|
    decreases |t| - p
  {
    var s := RunStart(t, p);
    if s == |t| then [] else [Folded(t[s..RunEnd(t, s)])] + TokenKeys(t, RunEnd(t, s))
  }

  /** The text holds `k` as a token. */
  ghost predicate HasToken(t: seq<Byte>, k: Key) {
    exists a: nat, b: nat :: IsRun(t, a, b) && Folded(t[a..b]) == k
  }

  /** Key `i` is the folded run `i`. */
  predicate KeysOfRuns(t: seq<Byte>, ks: seq<Key>, rs: seq<Span>) {
    |ks| == |rs| && forall i :: 0 <= i < |rs| ==> rs[i].0 <= rs[i].1 <= |t| && ks[i] == Folded(t[rs[i].0..rs[i].1])
  }

  lemma {:induction false} TokenKeysOfRuns(t: seq<Byte>, p: nat)
    requires p <= |t|
    ensures KeysOfRuns(t, TokenKeys(t, p), Runs(t, p))
    decreases |t| - p
  {
    hide *;
    RunsUnfold(t, p);
    TokenKeysUnfold(t, p);
    RunProgress(t, p);
    var s := RunStart(t, p);
    if s < |t| {
      var e := RunEnd(t, s);
      TokenKeysOfRuns(t, e);
      ConsKey(t, TokenKeys(t, e), Runs(t, e), s, e);
    } else {
      NoKeys(t);
    }
  }

  lemma {:induction false} TokenKeysUnfold(t: seq<Byte>, p: nat)
    requires p <= |t|
    ensures TokenKeys(t, p) == (var s := RunStart(t, p); if s == |t| then [] else [Folded(t[s..RunEnd(t, s)])] + TokenKeys(t, RunEnd(t, s)))
  {
  }

  lemma {:induction false} ConsKey(t: seq<Byte>, ks: seq<Key>, rs: seq<Span>, s: nat, e: nat)
    requires s <= e <= |t| && KeysOfRuns(t, ks, rs)
    ensures KeysOfRuns(t, [Folded(t[s..e])] + ks, [(s, e)] + rs)
  {
    hide Folded;
  }

  lemma {:induction false} NoKeys(t: seq<Byte>)
    ensures KeysOfRuns(t, [], [])
  {
  }

  lemma {:induction false} KeyOfRun(t: seq<Byte>, ks: seq<Key>, rs: seq<Span>, i: nat)
    requires KeysOfRuns(t, ks, rs) && i < |rs|
    ensures |ks| == |rs| && rs[i].0 <= rs[i].1 <= |t| && ks[i] == Folded(t[rs[i].0..rs[i].1])
  {
    hide Folded;
  }

  lemma {:induction false} SameCount(t: seq<Byte>, ks: seq<Key>, rs: seq<Span>)
    requires KeysOfRuns(t, ks, rs)
    ensures |ks| == |rs|
  {
  }

  /** The keys are exactly the tokens the text holds. */
  lemma {:induction false} TokenKeysExact(t: seq<Byte>, k: Key)
    ensures k in TokenKeys(t, 0) <==> HasToken(t, k)
  {
    hide *;
    TokenKeysOfRuns(t, 0);
    SameCount(t, TokenKeys(t, 0), Runs(t, 0));
    RunsSound(t, 0) by { BeforeStart(t); }
    if k in TokenKeys(t, 0) {
      var i :| 0 <= i < |TokenKeys(t, 0)| && TokenKeys(t, 0)[i] == k;
      AllRunsAt(t, Runs(t, 0), i);
      KeyOfRun(t, TokenKeys(t, 0), Runs(t, 0), i);
      HasTokenAt(t, Runs(t, 0)[i].0, Runs(t, 0)[i].1);
    }
    if HasToken(t, k) {
      var a, b := SomeToken(t, k);
      RunsComplete(t, 0, a, b);
      var i :| 0 <= i < |Runs(t, 0)| && Runs(t, 0)[i] == (a, b);
      KeyOfRun(t, TokenKeys(t, 0), Runs(t, 0), i);
      assert TokenKeys(t, 0)[i] == k;
    }
  }

  lemma {:induction false} BeforeStart(t: seq<Byte>)
    ensures !TokenAt(t, -1)
  {
  }

  lemma {:induction false} AllRunsAt(t: seq<Byte>, rs: seq<Span>, i: nat)
    requires AllRuns(t, rs) && i < |rs|
    ensures IsRun(t, rs[i].0, rs[i].1)
  {
  }

  lemma {:induction false} HasTokenAt(t: seq<Byte>, a: nat, b: nat)
    requires IsRun(t, a, b)
    ensures a < b <= |t| && HasToken(t, Folded(t[a..b]))
  {
  }

  lemma {:induction false} SomeToken(t: seq<Byte>, k: Key) returns (a: nat, b: nat)
    requires HasToken(t, k)
    ensures IsRun(t, a, b) && a < b <= |t| && Folded(t[a..b]) == k
  {
    a, b :| IsRun(t, a, b) && Folded(t[a..b]) == k;
  }

  /** The cursor loops that find the next token. */
  method NextRun(t: seq<Byte>, from: nat) returns (start: nat, end: nat)
    requires from <= |t|
    ensures start == RunStart(t, from) && end == RunEnd(t, start)
  {
    var cursor := from;
    while cursor < |t| && !IsTokenByte(t[cursor])
      invariant from <= cursor <= |t| && RunStart(t, from) == RunStart(t, cursor)
    {
      cursor := cursor + 1;
    }
    start := cursor;
    while cursor < |t| && IsTokenByte(t[cursor])
      invariant start <= cursor <= |t| && RunEnd(t, start) == RunEnd(t, cursor)
    {
      cursor := cursor + 1;
    }
    end := cursor;
  }

  // ----- keys of a query -----

  /** Distinct folded tokens of the query, within both query limits. */
  function QueryKeys(query: seq<Byte>, maxBytes: U64, maxTerms: U64): Result<seq<Key>> {
    if |query| > maxBytes then Err
    else
      var keys := Distinct(TokenKeys(query, 0));
      if |keys| > maxTerms then Err else Ok(keys)
  }

  method UniqueQueryKeys(query: seq<Byte>, maxBytes: U64, maxTerms: U64) returns (r: Result<seq<Key>>)
    ensures r == QueryKeys(query, maxBytes, maxTerms)
  {
    hide Distinct, Insert, Folded, Less, RunStart, RunEnd;
    if |query| > maxBytes { return Err; }
    var keys: seq<Key> := [];
    ghost var done: seq<Key> := [];
    var cursor := 0;
    assert keys == Distinct(done) by { DistinctNone(); }
    while cursor < |query|
      invariant cursor <= |query| && keys == Distinct(done) && |keys| <= maxTerms
      invariant done + TokenKeys(query, cursor) == TokenKeys(query, 0)
      decreases |query| - cursor
    {
      var start, end := NextRun(query, cursor);
      if start < end {
        var key := Folded(query[start..end]);
        ghost var all := TokenKeys(query, 0);
        assert TokenKeys(query, cursor) == [key] + TokenKeys(query, end);
        assert all == (done + [key]) + TokenKeys(query, end);
        assert all[..|done| + 1] == done + [key];
        DistinctExact(done);
        DistinctSnoc(done, key);
        InsertExact(keys, key);
        if key !in keys {
          if |keys| >= maxTerms { DistinctGrows(all, |done| + 1); return Err; }
          keys := Insert(keys, key);
        }
        done := done + [key];
      } else {
        RunProgress(query, cursor);
        assert TokenKeys(query, cursor) == [] && TokenKeys(query, end) == [];
      }
      cursor := end;
    }
    assert done == TokenKeys(query, 0);
    return Ok(keys);
  }

  /** The loops stop without a token only at the end of the text. */
  lemma {:induction false} RunProgress(t: seq<Byte>, p: nat)
    requires p <= |t|
    ensures RunStart(t, p) < |t| ==> RunStart(t, p) < RunEnd(t, RunStart(t, p))
    ensures RunStart(t, p) == |t| ==> RunEnd(t, RunStart(t, p)) == |t|
  {
  }
}
