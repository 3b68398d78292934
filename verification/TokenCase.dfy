/** Tokens compared letter by letter: what folding and the keys of a query mean, stated on the bytes themselves. */
module TokenCase {
  import opened Bytes
  import opened KeySets
  import opened Tokens
  import opened TokenMeaning

  /** The token bytes: ASCII letters and digits, underscore and hyphen. */
  lemma {:induction false} TokenBytes(b: Byte)
    ensures var ch := b as char;
            IsTokenByte(b) <==> 'a' <= ch <= 'z' || 'A' <= ch <= 'Z' || '0' <= ch <= '9' || ch == '_' || ch == '-'
  {
  }

  /** Equal, or an ASCII letter and its other case. */
  predicate SameLetter(x: Byte, y: Byte) {
    x == y || (65 <= x <= 90 && y == x + 32) || (65 <= y <= 90 && x == y + 32)
  }

  predicate SameWord(a: seq<Byte>, b: seq<Byte>) {
    |a| == |b| && forall i :: 0 <= i < |a| ==> SameLetter(a[i], b[i])
  }

  predicate NoCapitals(s: seq<Byte>) { forall i :: 0 <= i < |s| ==> !(65 <= s[i] <= 90) }

  /** Folding identifies exactly the case variants. */
  lemma {:induction false} FoldedIff(a: seq<Byte>, b: seq<Byte>)
    ensures Folded(a) == Folded(b) <==> SameWord(a, b)
  {
    if Folded(a) == Folded(b) {
      forall i | 0 <= i < |a| ensures SameLetter(a[i], b[i]) { assert Folded(a)[i] == Folded(b)[i]; }
    }
  }

  /** The folded form is the one case variant without capitals. */
  lemma {:induction false} FoldedIsLower(s: seq<Byte>, k: seq<Byte>)
    ensures k == Folded(s) <==> SameWord(k, s) && NoCapitals(k)
  {
    if SameWord(k, s) && NoCapitals(k) {
      forall i | 0 <= i < |k| ensures k[i] == Folded(s)[i] { assert SameLetter(k[i], s[i]); }
    }
  }

  /** `k` is the lower-case spelling of a token of the text. */
  ghost predicate Spelling(t: seq<Byte>, k: Key) {
    NoCapitals(k) && exists a: nat, b: nat :: IsRun(t, a, b) && SameWord(k, t[a..b])
  }

  /** The keys of a text: the lower-case spellings of its tokens. */
  lemma {:induction false} TokenKeysAreLower(t: seq<Byte>, k: Key)
    ensures k in TokenKeys(t, 0) <==> Spelling(t, k)
  {
    hide TokenKeys, Folded, SameWord, NoCapitals;
    TokenKeysExact(t, k);
    if HasToken(t, k) {
      var a, b := SomeToken(t, k);
      FoldedIsLower(t[a..b], k);
    }
    if Spelling(t, k) {
      var a: nat, b: nat :| IsRun(t, a, b) && SameWord(k, t[a..b]);
      FoldedIsLower(t[a..b], k);
      RunNonempty(t, a, b);
      HasTokenAt(t, a, b);
    }
  }

  lemma {:induction false} SortedSize(keys: seq<Key>)
    requires Sorted(keys)
    ensures |set k | k in keys| == |keys|
    decreases |keys|
  {
    hide Less;
    if keys != [] {
      var front, last := keys[..|keys| - 1], keys[|keys| - 1];
      SortedSize(front);
      if last in front { LessIrreflexive(last); }
      assert (set k | k in keys) == (set k | k in front) + {last};
    }
  }

  /** The query's keys are its distinct spellings in byte order; they are refused exactly beyond a query limit. */
  lemma {:induction false} QueryKeysExact(query: seq<Byte>, maxBytes: U64, maxTerms: U64, spellings: set<Key>)
    requires forall k :: k in spellings <==> Spelling(query, k)
    ensures QueryKeys(query, maxBytes, maxTerms).Ok? <==> |query| <= maxBytes && |spellings| <= maxTerms
    ensures QueryKeys(query, maxBytes, maxTerms).Ok? ==>
              var keys := QueryKeys(query, maxBytes, maxTerms).value;
              Sorted(keys) && forall k :: k in keys <==> Spelling(query, k)
  {
    hide TokenKeys, Distinct, Sorted, Spelling;
    var keys := Distinct(TokenKeys(query, 0));
    DistinctExact(TokenKeys(query, 0));
    SortedSize(keys);
    forall k ensures k in keys <==> Spelling(query, k) { TokenKeysAreLower(query, k); }
    assert (set k | k in keys) == spellings;
  }

  // ----- plain-scan hits in terms of the query text -----

  /** Some token of the query is spelled like `word`. */
  ghost predicate Asked(query: seq<Byte>, word: seq<Byte>) {
    exists c: nat, d: nat :: IsRun(query, c, d) && SameWord(word, query[c..d])
  }

  /** The line of position `a` holds a token spelled like `word`. */
  ghost predicate OnLine(t: seq<Byte>, a: nat, word: seq<Byte>) {
    exists e: nat, f: nat :: IsRun(t, e, f) && a <= |t| && OneLine(t, a, e) && SameWord(t[e..f], word)
  }

  /** A token spelled like some token of the query, on a line that holds all of the query's tokens. */
  ghost predicate PlainHit(t: seq<Byte>, query: seq<Byte>, a: nat, b: nat) {
    && IsRun(t, a, b)
    && Asked(query, t[a..b])
    && forall c: nat, d: nat :: IsRun(query, c, d) ==> OnLine(t, a, query[c..d])
  }

  /** The keys are exactly the folded tokens of the query. */
  ghost predicate KeysAsked(query: seq<Byte>, keys: seq<Key>) {
    && (forall k :: k in keys ==> Folded(k) == k)
    && (forall k :: k in keys <==> HasToken(query, k))
  }

  lemma {:induction false} AskedIff(query: seq<Byte>, keys: seq<Key>, word: seq<Byte>)
    requires KeysAsked(query, keys)
    ensures Asked(query, word) <==> exists k :: 0 <= k < |keys| && Folded(word) == Folded(keys[k])
  {
    hide Folded, SameWord;
    if Asked(query, word) {
      var c: nat, d: nat :| IsRun(query, c, d) && SameWord(word, query[c..d]);
      RunNonempty(query, c, d);
      FoldedIff(word, query[c..d]);
      HasTokenAt(query, c, d);
      var k :| 0 <= k < |keys| && keys[k] == Folded(query[c..d]);
      assert keys[k] in keys;
    }
    if exists k :: 0 <= k < |keys| && Folded(word) == Folded(keys[k]) {
      var k :| 0 <= k < |keys| && Folded(word) == Folded(keys[k]);
      assert keys[k] in keys;
      var c, d := SomeToken(query, keys[k]);
      FoldedIff(word, query[c..d]);
    }
  }

  lemma {:induction false} OnLineIff(t: seq<Byte>, a: nat, word: seq<Byte>, k: Key)
    requires Folded(k) == Folded(word)
    ensures OnLine(t, a, word) <==> LineHolds(t, a, k)
  {
    hide Folded, SameWord, OneLine;
    if OnLine(t, a, word) {
      var e: nat, f: nat :| IsRun(t, e, f) && a <= |t| && OneLine(t, a, e) && SameWord(t[e..f], word);
      RunNonempty(t, e, f);
      FoldedIff(t[e..f], word);
      assert KeyOnLine(t, a, k, e, f);
    }
    if LineHolds(t, a, k) {
      var e: nat, f: nat :| KeyOnLine(t, a, k, e, f);
      FoldedIff(t[e..f], word);
    }
  }

  /** Hits by query keys are hits by the query's text. */
  lemma {:induction false} PlainHitIff(t: seq<Byte>, query: seq<Byte>, keys: seq<Key>, a: nat, b: nat)
    requires KeysAsked(query, keys)
    ensures TextHit(t, keys, a, b) <==> PlainHit(t, query, a, b)
  {
    hide Folded, Asked, OnLine, LineHolds, KeysAsked;
    if IsRun(t, a, b) {
      RunNonempty(t, a, b);
      AskedIff(query, keys, t[a..b]);
      if TextHit(t, keys, a, b) {
        forall c: nat, d: nat | IsRun(query, c, d) ensures OnLine(t, a, query[c..d]) {
          var k := KeyOfToken(query, keys, c, d);
          OnLineIff(t, a, query[c..d], keys[k]);
        }
      }
      if PlainHit(t, query, a, b) {
        forall k | 0 <= k < |keys| ensures LineHolds(t, a, keys[k]) {
          var c, d := TokenOfKey(query, keys, k);
          OnLineIff(t, a, query[c..d], keys[k]);
        }
      }
    }
  }

  lemma {:induction false} KeyOfToken(query: seq<Byte>, keys: seq<Key>, c: nat, d: nat) returns (k: nat)
    requires KeysAsked(query, keys) && IsRun(query, c, d)
    ensures c < d <= |query| && k < |keys| && Folded(keys[k]) == Folded(query[c..d])
  {
    hide Folded;
    HasTokenAt(query, c, d);
    k :| 0 <= k < |keys| && keys[k] == Folded(query[c..d]);
    assert keys[k] in keys;
  }

  lemma {:induction false} TokenOfKey(query: seq<Byte>, keys: seq<Key>, k: nat) returns (c: nat, d: nat)
    requires KeysAsked(query, keys) && k < |keys|
    ensures c < d <= |query| && IsRun(query, c, d) && Folded(keys[k]) == Folded(query[c..d])
  {
    hide Folded;
    assert keys[k] in keys;
    c, d := SomeToken(query, keys[k]);
  }
}
