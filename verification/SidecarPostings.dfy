/** The posting section of a sidecar, direct list lookup, and the section checks around it. */
module SidecarPostings {
  import opened Bytes
  import opened Delta
  import opened Postings
  import opened IndexParts
  import opened SidecarTerms

  // ----- encoding -----

  ghost function PostingSection(postings: seq<seq<U64>>, n: nat): (bytes: seq<Byte>)
    requires n <= |postings|
    ensures |bytes| == EncodedBefore(postings, n)
  {
    if n == 0 then [] else PostingSection(postings, n - 1) + Encoded(postings[n - 1])
  }

  method EncodePostingSection(postings: seq<seq<U64>>) returns (r: Result<seq<Byte>>)
    ensures r.Ok? <==> AllIncreasing(postings)
    ensures r.Ok? ==> r.value == PostingSection(postings, |postings|)
  {
    hide Encoded, Increasing;
    var bytes: seq<Byte> := [];
    for i := 0 to |postings|
      invariant bytes == PostingSection(postings, i) && forall k :: 0 <= k < i ==> Increasing(postings[k])
    {
      var list := Encode(postings[i]);
      if list.Err? { return Err; }
      bytes := bytes + list.value;
    }
    return Ok(bytes);
  }

  /** Each list lies at the sum of the sizes before it. */
  lemma {:induction false} ListAt(postings: seq<seq<U64>>, n: nat, i: nat)
    requires i < n <= |postings|
    ensures EncodedBefore(postings, i) + |Encoded(postings[i])| <= EncodedBefore(postings, n)
    ensures PostingSection(postings, n)[EncodedBefore(postings, i)..EncodedBefore(postings, i) + |Encoded(postings[i])|] == Encoded(postings[i])
    decreases n
  {
    hide Encoded;
    var s := PostingSection(postings, n - 1);
    if i < n - 1 {
      ListAt(postings, n - 1, i);
      var a, b := EncodedBefore(postings, i), EncodedBefore(postings, i) + |Encoded(postings[i])|;
      assert (s + Encoded(postings[n - 1]))[a..b] == s[a..b];
    }
  }

  // ----- decoding -----

  datatype SidecarLimits = SidecarLimits(maxPostingsSize: U64, maxListSize: U64, maxIds: U64)

  /** The bytes of one term's list. */
  function ListBytes(bytes: seq<Byte>, t: Term, maxListSize: U64): Result<seq<Byte>> {
    if t.postingSize > maxListSize || t.postingOffset + t.postingSize > |bytes| then Err
    else Ok(bytes[t.postingOffset..t.postingOffset + t.postingSize])
  }

  /** Lists decoded one after another under a shared id budget. */
  function ListsFrom(bytes: seq<Byte>, ts: seq<Term>, maxListSize: U64, remaining: nat): (r: Result<seq<seq<U64>>>)
    ensures r.Ok? ==> |r.value| == |ts|
    decreases |ts|
  {
    if ts == [] then Ok([])
    else match ListBytes(bytes, ts[0], maxListSize)
      case Err => Err
      case Ok(encoded) =>
        match DecodeFrom(encoded, 0, None, remaining)
        case Err => Err
        case Ok(list) =>
          if |list| > remaining then Err
          else match ListsFrom(bytes, ts[1..], maxListSize, remaining - |list|)
            case Err => Err
            case Ok(rest) => Ok([list] + rest)
  }

  /** The section holds the list of every term where the term says it is. */
  ghost predicate Holds(bytes: seq<Byte>, ts: seq<Term>, maxListSize: U64, postings: seq<seq<U64>>) {
    && |ts| == |postings| && AllIncreasing(postings)
    && forall i :: 0 <= i < |ts| ==> ListBytes(bytes, ts[i], maxListSize) == Ok(Encoded(postings[i]))
  }

  /** Bulk decoding gives exactly the lists the section holds, within the cumulative id budget. */
  lemma {:induction false} ListsExact(bytes: seq<Byte>, ts: seq<Term>, maxListSize: U64, remaining: nat, postings: seq<seq<U64>>)
    ensures ListsFrom(bytes, ts, maxListSize, remaining) == Ok(postings)
            <==> Holds(bytes, ts, maxListSize, postings) && TotalIds(postings) <= remaining
    decreases |ts|
  {
    hide Encoded, Increasing, DecodeFrom, ListBytes;
    if ts != [] && postings != [] {
      var rest := if |postings[0]| <= remaining then remaining - |postings[0]| else 0;
      ListsExact(bytes, ts[1..], maxListSize, rest, postings[1..]);
      if ListBytes(bytes, ts[0], maxListSize).Ok? {
        DecodeIffEncoded(ListBytes(bytes, ts[0], maxListSize).value, postings[0], remaining);
      }
      HoldsCons(bytes, ts, maxListSize, postings);
      assert postings == [postings[0]] + postings[1..];
    }
  }

  lemma {:induction false} HoldsCons(bytes: seq<Byte>, ts: seq<Term>, maxListSize: U64, postings: seq<seq<U64>>)
    requires ts != [] && postings != []
    ensures Holds(bytes, ts, maxListSize, postings)
            <==> && Increasing(postings[0]) && ListBytes(bytes, ts[0], maxListSize) == Ok(Encoded(postings[0]))
                 && Holds(bytes, ts[1..], maxListSize, postings[1..])
  {
    hide Encoded, Increasing, ListBytes;
    if Increasing(postings[0]) && ListBytes(bytes, ts[0], maxListSize) == Ok(Encoded(postings[0])) && Holds(bytes, ts[1..], maxListSize, postings[1..]) {
      forall i | 0 <= i < |ts| ensures ListBytes(bytes, ts[i], maxListSize) == Ok(Encoded(postings[i])) && Increasing(postings[i]) {
        if i > 0 { assert ts[i] == ts[1..][i - 1] && postings[i] == postings[1..][i - 1]; }
      }
    }
    if Holds(bytes, ts, maxListSize, postings) {
      forall i | 0 <= i < |ts| - 1
        ensures ListBytes(bytes, ts[1..][i], maxListSize) == Ok(Encoded(postings[1..][i])) && Increasing(postings[1..][i])
      {
        assert ts[i + 1] == ts[1..][i] && postings[i + 1] == postings[1..][i];
      }
    }
  }

  method DecodePostingSection(bytes: seq<Byte>, ts: seq<Term>, limits: SidecarLimits) returns (r: Result<seq<seq<U64>>>)
    ensures r == if |bytes| > limits.maxPostingsSize then Err else ListsFrom(bytes, ts, limits.maxListSize, limits.maxIds)
  {
    hide DecodeFrom, ListBytes;
    if |bytes| > limits.maxPostingsSize { return Err; }
    var postings: seq<seq<U64>> := [];
    var remaining: U64 := limits.maxIds;
    ghost var all := ListsFrom(bytes, ts, limits.maxListSize, limits.maxIds);
    assert ts[0..] == ts && (all.Ok? ==> postings + all.value == all.value);
    for i := 0 to |ts|
      invariant all == match ListsFrom(bytes, ts[i..], limits.maxListSize, remaining) case Err => Err case Ok(rest) => Ok(postings + rest)
    {
      assert ts[i..][0] == ts[i] && ts[i..][1..] == ts[i + 1..];
      var encoded := ListBytes(bytes, ts[i], limits.maxListSize);
      if encoded.Err? { return Err; }
      var list := Decode(encoded.value, remaining);
      if list.Err? { return Err; }
      if |list.value| > remaining { return Err; }
      ghost var tail := ListsFrom(bytes, ts[i + 1..], limits.maxListSize, remaining - |list.value|);
      assert tail.Ok? ==> postings + ([list.value] + tail.value) == (postings + [list.value]) + tail.value;
      postings := postings + [list.value];
      remaining := remaining - |list.value|;
    }
    assert postings + [] == postings;
    return Ok(postings);
  }

  /** Terms whose offsets and sizes are those of the encoded lists. */
  ghost predicate Locates(ts: seq<Term>, postings: seq<seq<U64>>) {
    |ts| == |postings| && forall i :: 0 <= i < |ts| ==> LocatesAt(ts, postings, i)
  }

  ghost predicate LocatesAt(ts: seq<Term>, postings: seq<seq<U64>>, i: nat)
    requires i < |ts| && i < |postings|
  {
    ts[i].postingOffset == EncodedBefore(postings, i) && ts[i].postingSize == |Encoded(postings[i])|
  }

  /** What the builder encodes holds its lists, so decoding restores every posting list. */
  lemma {:induction false} BuilderSectionHolds(ts: seq<Term>, postings: seq<seq<U64>>, maxListSize: U64)
    requires Locates(ts, postings) && AllIncreasing(postings) && forall i :: 0 <= i < |ts| ==> ts[i].postingSize <= maxListSize
    ensures Holds(PostingSection(postings, |postings|), ts, maxListSize, postings)
  {
    hide Encoded, Increasing, PostingSection;
    var bytes := PostingSection(postings, |postings|);
    forall i | 0 <= i < |ts| ensures ListBytes(bytes, ts[i], maxListSize) == Ok(Encoded(postings[i])) {
      assert LocatesAt(ts, postings, i);
      ListAt(postings, |postings|, i);
    }
  }

  // ----- direct lookup in a file -----

  /** `fetch_postings`: one list read at its recorded place, with the frequency and id checks. */
  method FetchPostings(source: seq<Byte>, base: nat, ts: seq<Term>, i: nat, maxIds: U64, maxListSize: U64, granuleCount: U64) returns (r: Result<seq<U64>>)
    requires base <= |source|
    ensures r.Ok? <==> && i < |ts| && ListBytes(source[base..], ts[i], maxListSize).Ok?
                       && exists list :: IsList(ListBytes(source[base..], ts[i], maxListSize).value, list, maxIds) && |list| == ts[i].granuleFrequency && Below(list, granuleCount)
    ensures r.Ok? ==> IsList(ListBytes(source[base..], ts[i], maxListSize).value, r.value, maxIds)
  {
    hide Encoded, Increasing, DecodeFrom;
    if i >= |ts| { return Err; }
    var t := ts[i];
    if t.postingSize > maxListSize { return Err; }
    var offset := base + t.postingOffset;
    if offset + t.postingSize > |source| { return Err; }
    var bytes := source[offset..offset + t.postingSize];
    assert bytes == source[base..][t.postingOffset..t.postingOffset + t.postingSize];
    var list := Decode(bytes, maxIds);
    forall other ensures IsList(bytes, other, maxIds) <==> DecodeFrom(bytes, 0, None, maxIds) == Ok(other) { DecodeIffEncoded(bytes, other, maxIds); }
    if list.Err? { return Err; }
    if |list.value| != t.granuleFrequency { return Err; }
    for j := 0 to |list.value|
      invariant forall k :: 0 <= k < j ==> list.value[k] < granuleCount
    {
      if list.value[j] >= granuleCount { return Err; }
    }
    return list;
  }

  /** The bytes are the encoding of this list, which fits the id budget. */
  ghost predicate IsList(bytes: seq<Byte>, list: seq<U64>, maxIds: nat) {
    Increasing(list) && |list| <= maxIds && bytes == Encoded(list)
  }

  /** Direct lookup returns the element bulk decoding returns. */
  lemma {:induction false} LookupAgrees(bytes: seq<Byte>, ts: seq<Term>, maxListSize: U64, maxIds: U64, postings: seq<seq<U64>>, i: nat, list: seq<U64>)
    requires ListsFrom(bytes, ts, maxListSize, maxIds) == Ok(postings) && i < |ts|
    ensures |postings| == |ts| && ListBytes(bytes, ts[i], maxListSize).Ok?
    ensures IsList(ListBytes(bytes, ts[i], maxListSize).value, list, maxIds) <==> list == postings[i]
  {
    hide Encoded, Increasing, ListsFrom, ListBytes;
    ListsExact(bytes, ts, maxListSize, maxIds, postings);
    OneOfTotal(postings, i);
    if IsList(ListBytes(bytes, ts[i], maxListSize).value, list, maxIds) { EncodedInjective(list, postings[i]); }
  }

  lemma {:induction false} OneOfTotal(postings: seq<seq<U64>>, i: nat)
    requires i < |postings|
    ensures |postings[i]| <= TotalIds(postings)
    decreases |postings|
  {
    if i > 0 { OneOfTotal(postings[1..], i - 1); }
  }

  /** `validate_decoded_postings` */
  method ValidateDecodedPostings(ts: seq<Term>, postings: seq<seq<U64>>, granuleCount: U64) returns (ok: bool)
    ensures ok <==> |ts| == |postings| && forall i :: 0 <= i < |ts| ==> ts[i].granuleFrequency == |postings[i]| && Below(postings[i], granuleCount)
  {
    if |ts| != |postings| { return false; }
    for i := 0 to |ts|
      invariant forall k :: 0 <= k < i ==> ts[k].granuleFrequency == |postings[k]| && Below(postings[k], granuleCount)
    {
      if ts[i].granuleFrequency != |postings[i]| { return false; }
      for j := 0 to |postings[i]|
        invariant forall k :: 0 <= k < j ==> postings[i][k] < granuleCount
      {
        if postings[i][j] >= granuleCount { return false; }
      }
    }
    return true;
  }
}
