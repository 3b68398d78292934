/** Delta varint lists of u64 values, as stored in posting sections. */
module Delta {
  import opened Bytes
  import opened Varint

  predicate Increasing(values: seq<U64>) {
    forall i, j :: 0 <= i < j < |values| ==> values[i] < values[j]
  }

  predicate Below(values: seq<U64>, limit: nat) { forall i :: 0 <= i < |values| ==> values[i] < limit }

  /** The differences of a list that continues after `previous`. */
  function Tail(previous: U64, values: seq<U64>): (bytes: seq<Byte>)
    ensures |bytes| >= |values|
    decreases |values|
  {
    if values == [] then [] else Write(SaturatingSub(values[0], previous)) + Tail(values[0], values[1..])
  }

  /** The first value is stored directly, each later one as a positive difference. */
  function Encoded(values: seq<U64>): seq<Byte> {
    Tail(0, values)
  }

  function Last(previous: U64, values: seq<U64>): U64 {
    if values == [] then previous else values[|values| - 1]
  }

  lemma {:induction false} TailAppend(previous: U64, a: seq<U64>, b: seq<U64>)
    ensures Tail(previous, a + b) == Tail(previous, a) + Tail(Last(previous, a), b)
    decreases |a|
  {
    if a == [] {
      assert a + b == b;
    } else {
      assert (a + b)[1..] == a[1..] + b;
      TailAppend(a[0], a[1..], b);
      assert Last(a[0], a[1..]) == Last(previous, a);
      assert Write(SaturatingSub(a[0], previous)) + (Tail(a[0], a[1..]) + Tail(Last(previous, a), b))
          == Tail(previous, a) + Tail(Last(previous, a), b);
    }
  }

  lemma {:induction false} TailCons(previous: U64, values: seq<U64>)
    requires values != []
    ensures Tail(previous, values) == Write(SaturatingSub(values[0], previous)) + Tail(values[0], values[1..])
  {
  }

  lemma {:induction false} TailSnoc(previous: U64, a: seq<U64>, v: U64)
    ensures Tail(previous, a + [v]) == Tail(previous, a) + Write(SaturatingSub(v, Last(previous, a)))
  {
    TailAppend(previous, a, [v]);
    assert Tail(Last(previous, a), [v]) == Write(SaturatingSub(v, Last(previous, a))) + [];
  }

  /** What the decoder does from a cursor, after `previous`, with `budget` values left. */
  function DecodeFrom(bytes: seq<Byte>, at: nat, previous: Option<U64>, budget: nat): (r: Result<seq<U64>>)
    decreases |bytes| - at
  {
    if at >= |bytes| then Ok([])
    else if budget == 0 then Err
    else match Parse(bytes, at)
      case None => Err
      case Some((delta, next)) =>
        var value := if previous.None? then delta else previous.value + delta;
        if value > U64_MAX || (previous.Some? && value <= previous.value) then Err
        else
          var rest :- DecodeFrom(bytes, next, Some(value), budget - 1);
          Ok([value] + rest)
  }

  function Base(previous: Option<U64>): U64 { if previous.None? then 0 else previous.value }

  predicate Continues(previous: Option<U64>, values: seq<U64>) {
    && Increasing(values)
    && (values != [] && previous.Some? ==> previous.value < values[0])
  }

  lemma {:induction false} DecodeFromSound(bytes: seq<Byte>, at: nat, previous: Option<U64>, budget: nat)
    requires at <= |bytes|
    requires DecodeFrom(bytes, at, previous, budget).Ok?
    ensures var values := DecodeFrom(bytes, at, previous, budget).value;
            && |values| <= budget && Continues(previous, values)
            && bytes[at..] == Tail(Base(previous), values)
    decreases |bytes| - at
  {
    hide Varint.Parse;
    hide Varint.Write;
    if at < |bytes| {
      var (delta, next) := Parse(bytes, at).value;
      var value := if previous.None? then delta else previous.value + delta;
      DecodeFromSound(bytes, next, Some(value), budget - 1);
      ParseIffWritten(bytes, at, delta, next);
      var rest := DecodeFrom(bytes, next, Some(value), budget - 1).value;
      assert bytes[at..] == bytes[at..next] + bytes[next..];
      assert ([value] + rest)[1..] == rest;
    }
  }

  lemma {:induction false} DecodeStep(bytes: seq<Byte>, at: nat, previous: Option<U64>, value: U64, next: nat, rest: seq<U64>, budget: nat)
    requires at < next <= |bytes| && budget > 0
    requires previous.Some? ==> previous.value < value
    requires Parse(bytes, at) == Some((value - Base(previous), next))
    requires DecodeFrom(bytes, next, Some(value), budget - 1) == Ok(rest)
    ensures DecodeFrom(bytes, at, previous, budget) == Ok([value] + rest)
  {
  }

  lemma {:induction false} SplitAt(bytes: seq<Byte>, at: nat, a: seq<Byte>, b: seq<Byte>)
    requires at <= |bytes| && bytes[at..] == a + b
    ensures at + |a| <= |bytes| && bytes[at..at + |a|] == a && bytes[at + |a|..] == b
  {
    assert bytes[at..at + |a|] == bytes[at..][..|a|];
    assert bytes[at + |a|..] == bytes[at..][|a|..];
  }

  lemma {:induction false} DecodeFromComplete(bytes: seq<Byte>, at: nat, previous: Option<U64>, values: seq<U64>, budget: nat)
    requires at <= |bytes|
    requires |values| <= budget && Continues(previous, values)
    requires bytes[at..] == Tail(Base(previous), values)
    ensures DecodeFrom(bytes, at, previous, budget) == Ok(values)
    decreases |values|
  {
    hide *;
    if values == [] {
      DecodeNothing(bytes, at, previous, budget);
    } else {
      ContinuesRest(previous, values);
      TailCons(Base(previous), values);
      var first := Write(values[0] - Base(previous));
      var next := at + |first|;
      SplitAt(bytes, at, first, Tail(values[0], values[1..]));
      ParseWritten(bytes, at, values[0] - Base(previous));
      DecodeFromComplete(bytes, next, Some(values[0]), values[1..], budget - 1);
      DecodeStep(bytes, at, previous, values[0], next, values[1..], budget);
      assert values == [values[0]] + values[1..];
    }
  }

  lemma {:induction false} DecodeNothing(bytes: seq<Byte>, at: nat, previous: Option<U64>, budget: nat)
    requires at <= |bytes| && bytes[at..] == Tail(Base(previous), [])
    ensures DecodeFrom(bytes, at, previous, budget) == Ok([])
  {
  }

  lemma {:induction false} ContinuesRest(previous: Option<U64>, values: seq<U64>)
    requires Continues(previous, values) && values != []
    ensures Continues(Some(values[0]), values[1..]) && Base(Some(values[0])) == values[0]
    ensures Base(previous) <= values[0] && (previous.Some? ==> previous.value < values[0])
    ensures SaturatingSub(values[0], Base(previous)) == values[0] - Base(previous)
    ensures |Write(values[0] - Base(previous))| >= 1
  {
    hide Write;
  }

  /** Decoding and encoding are exact inverses on the lists that fit the budget. */
  lemma {:induction false} DecodeIffEncoded(bytes: seq<Byte>, values: seq<U64>, budget: nat)
    ensures DecodeFrom(bytes, 0, None, budget) == Ok(values)
            <==> Increasing(values) && |values| <= budget && bytes == Encoded(values)
  {
    assert bytes[0..] == bytes;
    if DecodeFrom(bytes, 0, None, budget) == Ok(values) { DecodeFromSound(bytes, 0, None, budget); }
    if Increasing(values) && |values| <= budget && bytes == Encoded(values) {
      DecodeFromComplete(bytes, 0, None, values, budget);
    }
  }

  /** Equal encodings come from equal lists. */
  lemma {:induction false} EncodedInjective(a: seq<U64>, b: seq<U64>)
    requires Increasing(a) && Increasing(b) && Encoded(a) == Encoded(b)
    ensures a == b
  {
    DecodeIffEncoded(Encoded(a), a, |a| + |b|);
    DecodeIffEncoded(Encoded(a), b, |a| + |b|);
  }

  lemma {:induction false} IncreasingAdjacent(values: seq<U64>)
    requires forall i :: 0 <= i < |values| - 1 ==> values[i] < values[i + 1]
    ensures Increasing(values)
  {
    forall i, j | 0 <= i < j < |values| ensures values[i] < values[j] { IncreasingStep(values, i, j); }
  }

  lemma {:induction false} IncreasingStep(values: seq<U64>, i: nat, j: nat)
    requires forall i :: 0 <= i < |values| - 1 ==> values[i] < values[i + 1]
    requires i < j < |values|
    ensures values[i] < values[j]
    decreases j
  {
    if i + 1 < j { IncreasingStep(values, i, j - 1); }
    assert values[j - 1] < values[j];
  }

  method Encode(values: seq<U64>) returns (r: Result<seq<Byte>>)
    ensures r.Ok? <==> Increasing(values)
    ensures r.Ok? ==> r.value == Encoded(values)
  {
    var bytes: seq<Byte> := [];
    var previous: U64 := 0;
    for index := 0 to |values|
      invariant forall i :: 0 <= i < index - 1 ==> values[i] < values[i + 1]
      invariant previous == Last(0, values[..index])
      invariant bytes == Tail(0, values[..index])
    {
      var value := values[index];
      if index > 0 && value <= previous { return Err; }
      assert values[..index + 1] == values[..index] + [value];
      TailSnoc(0, values[..index], value);
      bytes := WriteVaruint(value - previous, bytes);
      previous := value;
    }
    assert values[..|values|] == values;
    IncreasingAdjacent(values);
    return Ok(bytes);
  }

  lemma {:induction false} TailNothing(values: seq<U64>)
    ensures Tail(0, values[..0]) == [] && Last(0, values[..0]) == 0
  {
  }

  /** Predicts the length `Encode` would produce; fails only where `Encode` does or past u64. */
  method EncodedSize(values: seq<U64>) returns (r: Result<U64>)
    ensures r.Ok? <==> Increasing(values) && |Encoded(values)| <= U64_MAX
    ensures r.Ok? ==> r.value == |Encoded(values)|
  {
    hide Write, Tail;
    TailNothing(values);
    var size: U64, previous: U64 := 0, 0;
    for index := 0 to |values|
      invariant forall i :: 0 <= i < index - 1 ==> values[i] < values[i + 1]
      invariant previous == Last(0, values[..index])
      invariant size == |Tail(0, values[..index])|
    {
      var value := values[index];
      if index > 0 && value <= previous { return Err; }
      assert values[..index + 1] == values[..index] + [value];
      TailSnoc(0, values[..index], value);
      var len := VaruintLen(value - previous);
      if size + len > U64_MAX {
        if Increasing(values) {
          assert values == values[..index + 1] + values[index + 1..];
          TailAppend(0, values[..index + 1], values[index + 1..]);
        }
        return Err;
      }
      size := size + len;
      previous := value;
    }
    assert values[..|values|] == values;
    IncreasingAdjacent(values);
    return Ok(size);
  }

  method Decode(bytes: seq<Byte>, maxValues: U64) returns (r: Result<seq<U64>>)
    ensures r == DecodeFrom(bytes, 0, None, maxValues)
  {
    hide Varint.Parse;
    var cursor := 0;
    var values: seq<U64> := [];
    var previous: U64 := 0;
    assert DecodeFrom(bytes, 0, None, maxValues).Ok? ==>
        [] + DecodeFrom(bytes, 0, None, maxValues).value == DecodeFrom(bytes, 0, None, maxValues).value;
    while cursor < |bytes|
      invariant cursor <= |bytes| && |values| <= maxValues
      invariant values != [] ==> previous == values[|values| - 1]
      invariant DecodeFrom(bytes, 0, None, maxValues)
                == match DecodeFrom(bytes, cursor, if values == [] then None else Some(previous), maxValues - |values|)
                   case Err => Err
                   case Ok(rest) => Ok(values + rest)
      decreases |bytes| - cursor
    {
      if |values| >= maxValues { return Err; }
      var read := ReadSearch(bytes, cursor);
      if read.None? { return Err; }
      var (delta, next) := read.value;
      var value := if values == [] then delta else previous + delta;
      if value > U64_MAX { return Err; }
      if values != [] && value <= previous { return Err; }
      ghost var tail := DecodeFrom(bytes, next, Some(value), maxValues - |values| - 1);
      assert tail.Ok? ==> values + ([value] + tail.value) == (values + [value]) + tail.value;
      cursor := next;
      values := values + [value];
      previous := value;
    }
    assert values + [] == values;
    return Ok(values);
  }

  // ----- skip points -----

  datatype SkipPoint = SkipPoint(entryIndex: nat, granuleId: U64, byteOffset: nat)

  const SKIP_THRESHOLD: nat := 1024
  const SKIP_INTERVAL: nat := 128

  /** A skip point names an entry, its value, and the encoded length of everything before it. */
  ghost predicate SkipPointAt(p: SkipPoint, list: seq<U64>, index: nat)
  {
    && p.entryIndex == index < |list|
    && p.granuleId == list[index]
    && p.byteOffset == |Encoded(list[..index])|
  }

  /** Seeking to a skip point and decoding from its byte offset yields the rest of the list. */
  lemma {:induction false} SeekResumes(list: seq<U64>, p: SkipPoint, index: nat)
    requires Increasing(list) && 0 < index && SkipPointAt(p, list, index)
    ensures p.byteOffset <= |Encoded(list)|
    ensures DecodeFrom(Encoded(list), p.byteOffset, Some(list[index - 1]), |list|) == Ok(list[index..])
  {
    assert list == list[..index] + list[index..];
    TailAppend(0, list[..index], list[index..]);
    assert Encoded(list)[p.byteOffset..] == Tail(list[index - 1], list[index..]);
    DecodeFromComplete(Encoded(list), p.byteOffset, Some(list[index - 1]), list[index..], |list|);
  }

  /** One loop turn of the skip builder: the varint at the cursor is the next difference. */
  lemma {:induction false} NextDelta(list: seq<U64>, index: nat)
    requires Increasing(list) && index < |list|
    ensures var at := |Encoded(list[..index])|;
            && at <= |Encoded(list)|
            && Parse(Encoded(list), at) == Some((list[index] - Last(0, list[..index]), |Encoded(list[..index + 1])|))
  {
    hide *;
    var at, next := NextStored(list, index);
    SplitAt(Encoded(list), at, Write(next), Tail(list[index], list[index + 1..]));
    ParseWritten(Encoded(list), at, next);
  }

  /** What is stored from an entry on: its difference, then the rest. */
  lemma {:induction false} NextStored(list: seq<U64>, index: nat) returns (at: nat, next: U64)
    requires Increasing(list) && index < |list|
    ensures at == |Encoded(list[..index])| <= |Encoded(list)| && next == list[index] - Last(0, list[..index])
    ensures Encoded(list)[at..] == Write(next) + Tail(list[index], list[index + 1..])
    ensures |Encoded(list[..index + 1])| == at + |Write(next)|
  {
    hide *;
    CutAt(list, index);
    LastBelow(list, index);
    StoredAfter(list[..index], list[index..]);
    at, next := |Encoded(list[..index])|, list[index] - Last(0, list[..index]);
  }

  lemma {:induction false} CutAt<T>(list: seq<T>, index: nat)
    requires index < |list|
    ensures list == list[..index] + list[index..] && list[index..][0] == list[index] && list[index..][1..] == list[index + 1..]
    ensures list[..index + 1] == list[..index] + [list[index]]
  {
  }

  lemma {:induction false} LastBelow(list: seq<U64>, index: nat)
    requires Increasing(list) && index < |list|
    ensures Last(0, list[..index]) <= list[index]
  {
    if index > 0 { assert list[index - 1] < list[index]; }
  }

  lemma {:induction false} StoredAfter(head: seq<U64>, tail: seq<U64>)
    requires tail != [] && Last(0, head) <= tail[0]
    ensures |Encoded(head)| <= |Encoded(head + tail)|
    ensures Encoded(head + tail)[|Encoded(head)|..] == Write(tail[0] - Last(0, head)) + Tail(tail[0], tail[1..])
    ensures |Encoded(head + [tail[0]])| == |Encoded(head)| + |Write(tail[0] - Last(0, head))|
  {
    hide Write, Tail, Last;
    TailAppend(0, head, tail);
    TailCons(Last(0, head), tail);
    TailSnoc(0, head, tail[0]);
  }

  method BuildSkipPoints(list: seq<U64>, encoded: seq<Byte>) returns (r: Result<seq<SkipPoint>>)
    requires Increasing(list) && encoded == Encoded(list)
    ensures r.Ok?
    ensures |list| < SKIP_THRESHOLD ==> r.value == []
    ensures |list| >= SKIP_THRESHOLD ==> |r.value| == (|list| - 1) / SKIP_INTERVAL
    ensures forall i :: 0 <= i < |r.value| ==> SkipPointAt(r.value[i], list, (i + 1) * SKIP_INTERVAL)
  {
    if |list| < SKIP_THRESHOLD { return Ok([]); }
    var points: seq<SkipPoint> := [];
    var cursor, previous: U64 := 0, 0;
    for index := 0 to |list|
      invariant cursor == |Encoded(list[..index])|
      invariant previous == Last(0, list[..index])
      invariant |points| == if index == 0 then 0 else (index - 1) / SKIP_INTERVAL
      invariant forall i :: 0 <= i < |points| ==> SkipPointAt(points[i], list, (i + 1) * SKIP_INTERVAL)
    {
      NextDelta(list, index);
      if index > 0 && index % 128 == 0 {
        points := points + [SkipPoint(index, list[index], cursor)];
      }
      var read := ReadSearch(encoded, cursor);
      if read.None? { return Err; }
      var (delta, next) := read.value;
      var decoded := if index == 0 then delta else previous + delta;
      if decoded > U64_MAX || decoded != list[index] { return Err; }
      cursor := next;
      previous := decoded;
    }
    assert list[..|list|] == list;
    if cursor != |encoded| { return Err; }
    return Ok(points);
  }
}
