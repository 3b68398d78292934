/** Building an index of a text and searching it, end to end: the reported hits are the plain scan of the text. */
module SearchEndToEnd {
  import opened Bytes
  import opened ChunkCache
  import opened Tokens
  import opened TokenCase
  import opened Ngrams
  import opened PostingStream
  import opened LineIndex
  import opened Verification
  import opened Search
  import opened SearchExact
  import opened IndexParts
  import Utf8

  /** The hits are exactly the case variants of query tokens on lines holding all of them, in text order. */
  ghost predicate IsTokenScan(t: seq<Byte>, query: seq<Byte>, hits: seq<SearchHit>) {
    Ascend(hits, 0, |t|) && forall a, b :: HitAt(hits, a, b) <==> PlainHit(t, query, a, b)
  }

  /** The hits are exactly the occurrences of the query inside a line, in text order. */
  ghost predicate IsSubstringScan(t: seq<Byte>, query: seq<Byte>, hits: seq<SearchHit>) {
    && Ascend(hits, 0, |t|)
    && (forall a: nat :: HitAt(hits, a, a + |query|) <==> OccursInLine(t, query, a))
    && (forall i :: 0 <= i < |hits| ==> hits[i].byteLength == |query|)
  }

  /** Why building fails, read off the container itself: zero scalars, invalid UTF-8, or a limit the text breaks. */
  ghost predicate NotIndexable(c: Container, mode: BuildKeys, maxLine: nat, limits: BuildLimits, maxEncoded: nat)
    requires c.Valid()
  {
    || !mode.Valid() || !ChunksValid(c) || !Buildable(c.text, mode, maxLine, limits)
    || exists parts :: IsIndexOf(c, mode, parts) && EncodedTotal(parts, mode.NgramMode?) > maxEncoded
  }

  lemma {:induction false} WhyNotIndexed(c: Container, mode: BuildKeys, maxLine: nat, limits: BuildLimits, maxEncoded: nat)
    requires c.Valid()
    requires mode.Valid() && ChunksValid(c) && Buildable(c.text, mode, maxLine, limits) ==>
               exists parts :: IsIndexOf(c, mode, parts) && EncodedTotal(parts, mode.NgramMode?) > maxEncoded
    ensures NotIndexable(c, mode, maxLine, limits, maxEncoded)
  {
    hide ChunksValid, Buildable, IsIndexOf, EncodedTotal;
  }

  lemma {:induction false} Indexed(c: Container, mode: BuildKeys, maxLine: nat, limits: BuildLimits, maxEncoded: nat)
    requires c.Valid() && mode.Valid() && ChunksValid(c) && Buildable(c.text, mode, maxLine, limits)
    requires forall parts :: IsIndexOf(c, mode, parts) ==> EncodedTotal(parts, mode.NgramMode?) <= maxEncoded
    ensures !NotIndexable(c, mode, maxLine, limits, maxEncoded)
  {
    hide ChunksValid, Buildable, IsIndexOf, EncodedTotal;
  }

  /**
   * For every text, chunk table and query, an unstopped search over the index the builder makes
   * reports exactly the plain scan.
   */
  method TokenSearchText(c: Container, maxLine: U64, limits: BuildLimits, maxEncoded: U64, query: seq<Byte>, options: SearchOptions)
    returns (x: Result<Index>, r: Result<Report>)
    requires c.Valid()
    ensures x.Err? <==> NotIndexable(c, TokenMode, maxLine, limits, maxEncoded)
    ensures x.Err? ==> r.Err?
    ensures x.Ok? ==> WellFormed(x.value) && r == TokenSearchFor(x.value, c, query, options)
    ensures r.Ok? && r.value.stop.None? ==> IsTokenScan(c.text, query, r.value.hits)
  {
    hide *;
    x := BuildIndex(c, TokenMode, maxLine, limits, maxEncoded, true);
    if x.Err? { WhyNotIndexed(c, TokenMode, maxLine, limits, maxEncoded); return Err, Err; }
    Indexed(c, TokenMode, maxLine, limits, maxEncoded);
    r := TokenSearch(x.value, c, query, options);
    if r.Ok? { TokenScan(x.value, c, query, options); }
  }

  lemma {:induction false} TokenScan(x: Index, c: Container, query: seq<Byte>, options: SearchOptions)
    requires c.Valid() && Built(c, TokenMode, x) && WellFormed(x) && TokenSearchFor(x, c, query, options).Ok?
    ensures TokenSearchFor(x, c, query, options).value.stop.None? ==> IsTokenScan(c.text, query, TokenSearchFor(x, c, query, options).value.hits)
  {
    hide *;
    TokenSearchIs(x, c, query, options);
    var keys, report := QueryKeys(query, options.maxQueryBytes, options.maxQueryTerms).value, TokenSearchFor(x, c, query, options).value;
    HitsInTextOrder(x, c, TokenMode, TokenQuery(keys), keys, ByLength, options);
    if report.stop.None? {
      forall a, b ensures HitAt(report.hits, a, b) <==> PlainHit(c.text, query, a, b) { TokenSearchIsExact(x, c, query, options, a, b); }
      TokenScanIs(c.text, query, report.hits);
    }
  }

  lemma {:induction false} TokenScanIs(t: seq<Byte>, query: seq<Byte>, hits: seq<SearchHit>)
    requires Ascend(hits, 0, |t|) && forall a, b :: HitAt(hits, a, b) <==> PlainHit(t, query, a, b)
    ensures IsTokenScan(t, query, hits)
  {
    hide Ascend, HitAt, PlainHit;
  }

  /**
   * For every text, chunk table, `n` and query of at least `n` scalars, an unstopped search over
   * the index the builder makes reports exactly the plain scan.
   */
  method NgramSearchText(c: Container, n: nat, maxLine: U64, limits: BuildLimits, maxEncoded: U64, complete: bool, high: nat, query: seq<Byte>, options: SearchOptions)
    returns (x: Result<Index>, r: Result<Report>)
    requires c.Valid() && Utf8.Valid(query)
    ensures x.Err? <==> NotIndexable(c, NgramMode(n), maxLine, limits, maxEncoded)
    ensures x.Err? ==> r.Err?
    ensures x.Ok? ==> WellFormed(x.value) && r == NgramSearchFor(x.value, c, query, n, high, options)
    ensures r.Ok? ==> n > 0
    ensures r.Ok? && r.value.stop.None? && |CharStarts(query, 0)| - 1 >= n ==> IsSubstringScan(c.text, query, r.value.hits)
  {
    hide *;
    x := BuildIndex(c, NgramMode(n), maxLine, limits, maxEncoded, complete);
    if x.Err? { WhyNotIndexed(c, NgramMode(n), maxLine, limits, maxEncoded); return Err, Err; }
    Indexed(c, NgramMode(n), maxLine, limits, maxEncoded);
    WholeValid(query, query);
    TextIsValid(c);
    r := NgramSearch(x.value, c, query, n, high, options);
    if r.Ok? { NgramScan(x.value, c, query, n, high, options); }
  }

  lemma {:induction false} TextIsValid(c: Container)
    requires c.Valid() && ChunksValid(c)
    ensures Utf8.Valid(c.text)
  {
    hide ChunksValid, Utf8.Valid;
    ChunksValidText(c, |c.entries|);
    TableEnd(c);
  }

  lemma {:induction false} NgramScan(x: Index, c: Container, query: seq<Byte>, n: nat, high: nat, options: SearchOptions)
    requires c.Valid() && Utf8.Valid(c.text) && Built(c, NgramMode(n), x) && WellFormed(x) && Utf8.Valid(query)
    requires NgramSearchFor(x, c, query, n, high, options).Ok?
    ensures n > 0
    ensures var report := NgramSearchFor(x, c, query, n, high, options).value;
            report.stop.None? && |CharStarts(query, 0)| - 1 >= n ==> IsSubstringScan(c.text, query, report.hits)
  {
    hide *;
    NgramSearchIs(x, c, query, n, high, options);
    WholeValid(query, query);
    var keys := NgramQueryKeys(query, n, options.maxQueryBytes, options.maxQueryTerms).value;
    var report := NgramSearchFor(x, c, query, n, high, options).value;
    HitsInTextOrder(x, c, NgramMode(n), SubstringQuery(query), keys, ByFrequency(high), options);
    KeysIffLongEnough(query, n);
    if report.stop.None? && |CharStarts(query, 0)| - 1 >= n {
      assert NgramKeys(query, n)[0] in keys;
      forall a: nat ensures HitAt(report.hits, a, a + |query|) <==> OccursInLine(c.text, query, a) {
        NgramSearchIsExact(x, c, query, n, high, options, a);
      }
      forall i | 0 <= i < |report.hits| ensures report.hits[i].byteLength == |query| {
        NgramHitsAreSound(x, c, query, n, high, options, report.hits[i]);
      }
      SubstringScanIs(c.text, query, report.hits);
    }
  }

  lemma {:induction false} SubstringScanIs(t: seq<Byte>, query: seq<Byte>, hits: seq<SearchHit>)
    requires Ascend(hits, 0, |t|) && (forall a: nat :: HitAt(hits, a, a + |query|) <==> OccursInLine(t, query, a))
    requires forall i :: 0 <= i < |hits| ==> hits[i].byteLength == |query|
    ensures IsSubstringScan(t, query, hits)
  {
    hide Ascend, HitAt, OccursInLine;
  }
}
