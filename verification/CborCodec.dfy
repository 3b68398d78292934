/** The CBOR entry points: the stateful parser, the buffer encoder and the measuring pass. */
module CborCodec {
  import opened Bytes
  import opened Cbor
  import opened CborCanon
  import opened CborParser
  import Utf8

  datatype Limits = Limits(maxAllocation: U64, maxItems: U64)

  /** One complete item: everything is consumed. */
  function Validate(input: seq<Byte>, limits: Limits): Result<Value> {
    var (v, st) :- ParseValue(input, State(0, limits.maxAllocation, limits.maxItems), 0);
    if st.offset == |input| then Ok(v) else Err
  }

  predicate Within(u: Usage, limits: Limits) { u.items <= limits.maxItems && u.allocation <= limits.maxAllocation }

  /** Any accepted byte string is the one encoding of the canonical value returned. */
  lemma {:induction false} AcceptedIsEncoding(input: seq<Byte>, limits: Limits)
    requires Validate(input, limits).Ok?
    ensures var v := Validate(input, limits).value;
            && Encode(v) == Ok(input) && Canonical(v) && TextsValid(v)
            && Depth(v) <= MAX_NESTING_DEPTH && Measurable(v) && Within(Measure(v), limits)
  {
    hide Encode;
    hide Canonical;
    hide TextsValid;
    hide Measurable;
    hide Measure;
    hide Depth;
    hide ParseValue;
    var st := State(0, limits.maxAllocation, limits.maxItems);
    ParseSound(input, st, 0);
    assert input[0..|input|] == input;
  }

  /** The encoding of any encodable value is accepted exactly within its measured charges, in canonical order. */
  lemma {:induction false} EncodingIsAccepted(v: Value, limits: Limits)
    requires Encode(v).Ok? && TextsValid(v)
    ensures Measurable(v) && |Encode(v).value| == Measure(v).encoded
    ensures Validate(Encode(v).value, limits)
            == if Depth(v) <= MAX_NESTING_DEPTH && Within(Measure(v), limits) then Ok(Canon(v)) else Err
  {
    hide Encode;
    hide Canonical;
    hide TextsValid;
    hide Measurable;
    hide Measure;
    hide Depth;
    hide Canon;
    hide ParseValue;
    CanonFaithful(v);
    EncodeLength(v);
    var input, st := Encode(v).value, State(0, limits.maxAllocation, limits.maxItems);
    assert input[0..] == input == input + [];
    ParseComplete(Canon(v), input, st, 0, []);
  }

  /** Equal encodings mean equal canonical values. */
  lemma {:induction false} EncodeInjective(a: Value, b: Value)
    requires Encode(a).Ok? && Encode(a) == Encode(b) && TextsValid(a) && TextsValid(b)
    requires Depth(a) <= MAX_NESTING_DEPTH && Measurable(a) && Measure(a).FitsU64()
    ensures Canon(a) == Canon(b)
  {
    hide Encode;
    hide Canon;
    hide TextsValid;
    hide Measure;
    hide Depth;
    hide Measurable;
    var limits := Limits(Measure(a).allocation, Measure(a).items);
    EncodingIsAccepted(a, limits);
    EncodingIsAccepted(b, limits);
  }

  // ----- the stateful parser -----

  /** The source compares with the next smaller width; the model asks for the width itself. */
  lemma {:induction false} ShortestForm(s: seq<Byte>)
    requires |s| == 1 || |s| == 2 || |s| == 4 || |s| == 8
    ensures var least := if |s| == 1 then 24 else if |s| == 2 then 0x100 else if |s| == 4 then 0x1_0000 else 0x1_0000_0000;
            ArgumentOf(s) >= least <==> ArgumentWidth(ArgumentOf(s)) == |s|
  {
    Widths();
    FromBigEndianInverse(s);
    hide FromBigEndian;
    hide Pow256;
  }

  class Parser {
    const input: seq<Byte>
    var offset: nat
    var remainingAllocation: nat
    var remainingItems: nat

    ghost predicate Valid() reads this { offset <= |input| }

    ghost function Now(): State reads this { State(offset, remainingAllocation, remainingItems) }

    constructor (input: seq<Byte>, limits: Limits)
      ensures Valid() && this.input == input && Now() == State(0, limits.maxAllocation, limits.maxItems)
    {
      this.input := input;
      offset, remainingAllocation, remainingItems := 0, limits.maxAllocation, limits.maxItems;
    }

    method ReadU8() returns (r: Result<Byte>)
      requires Valid()
      modifies this`offset
      ensures Valid() && r.Ok? == (old(offset) < |input|)
      ensures r.Ok? ==> r.value == input[old(offset)] && offset == old(offset) + 1
    {
      if offset >= |input| { return Err; }
      offset := offset + 1;
      return Ok(input[offset - 1]);
    }

    method ReadExact(len: nat) returns (r: Result<seq<Byte>>)
      requires Valid()
      modifies this`offset
      ensures Valid() && r.Ok? == (old(offset) + len <= |input|)
      ensures r.Ok? ==> r.value == input[old(offset)..old(offset) + len] && offset == old(offset) + len
    {
      if offset + len > |input| { return Err; }
      offset := offset + len;
      return Ok(input[offset - len..offset]);
    }

    method ReadArg(additional: nat) returns (r: Result<U64>)
      requires Valid() && additional < 32
      modifies this`offset
      ensures Valid()
      ensures match ReadArgument(input, old(offset), additional)
              case Err => r.Err?
              case Ok((value, next)) => r == Ok(value) && offset == next
    {
      if additional <= 23 { return Ok(additional); }
      if additional > 27 { return Err; }
      var width := if additional == 24 then 1 else if additional == 25 then 2 else if additional == 26 then 4 else 8;
      var bytes := ReadExact(width);
      if bytes.Err? { return Err; }
      var value := ArgumentOf(bytes.value);
      var shortest := if additional == 24 then 24 else if additional == 25 then 0x100 else if additional == 26 then 0x1_0000 else 0x1_0000_0000;
      ShortestForm(bytes.value);
      if value < shortest { return Err; }
      return Ok(value);
    }

    method Parse(depth: nat) returns (r: Result<Value>)
      requires Valid() && depth <= MAX_NESTING_DEPTH + 1
      modifies this
      ensures Valid()
      ensures match ParseValue(input, old(Now()), depth)
              case Err => r.Err?
              case Ok((v, st)) => r == Ok(v) && Now() == st
      decreases MAX_NESTING_DEPTH + 2 - depth, 0
    {
      hide ReadArgument;
      if depth > MAX_NESTING_DEPTH { return Err; }
      if remainingItems == 0 { return Err; }
      remainingItems := remainingItems - 1;
      var initial :- ReadU8();
      var major, additional := initial / 32, initial % 32;
      if major == 6 { return Err; }
      if major == 7 {
        if additional == 20 { return Ok(Bool(false)); }
        if additional == 21 { return Ok(Bool(true)); }
        if additional == 22 { return Ok(Null); }
        return Err;
      }
      var arg :- ReadArg(additional);
      if major == 0 { return Ok(Integer(arg)); }
      if major == 1 { return Ok(Integer(-1 - arg)); }
      if major == 2 || major == 3 {
        r := ParseBytes(arg, major == 3);
      } else if major == 4 {
        if arg > remainingItems { return Err; }
        var items :- ParseArray(arg, depth + 1);
        r := Ok(Array(items));
      } else {
        if arg > remainingItems / 2 { return Err; }
        var entries :- ParseMap(arg, depth + 1);
        r := Ok(Map(entries));
      }
    }

    /** `parse_bytes` and `parse_text` after their length. */
    method ParseBytes(len: U64, text: bool) returns (r: Result<Value>)
      requires Valid()
      modifies this
      ensures Valid()
      ensures match ParsePayload(input, old(Now()), text, len)
              case Err => r.Err?
              case Ok((v, st)) => r == Ok(v) && Now() == st
    {
      if len > remainingAllocation { return Err; }
      remainingAllocation := remainingAllocation - len;
      var bytes :- ReadExact(len);
      if text && !Utf8.Valid(bytes) { return Err; }
      return Ok(if text then Text(bytes) else ByteString(bytes));
    }

    method ParseArray(len: nat, depth: nat) returns (r: Result<seq<Value>>)
      requires Valid() && depth <= MAX_NESTING_DEPTH + 1
      modifies this
      ensures Valid()
      ensures match ParseItems(input, old(Now()), depth, len)
              case Err => r.Err?
              case Ok((items, st)) => r == Ok(items) && Now() == st
      decreases MAX_NESTING_DEPTH + 2 - depth, len + 1
    {
      hide ParseValue;
      var values: seq<Value> := [];
      ghost var all := ParseItems(input, Now(), depth, len);
      assert all.Ok? ==> values + all.value.0 == all.value.0;
      for i := 0 to len
        invariant Valid()
        invariant all == match ParseItems(input, Now(), depth, len - i)
                         case Err => Err
                         case Ok((rest, st)) => Ok((values + rest, st))
      {
        ghost var tail := ParseItems(input, Now(), depth, len - i);
        var value :- Parse(depth);
        assert tail.Ok? ==> values + tail.value.0 == (values + [value]) + tail.value.0[1..];
        values := values + [value];
      }
      assert values + [] == values;
      return Ok(values);
    }

    method ParseMap(len: nat, depth: nat) returns (r: Result<seq<Entry>>)
      requires Valid() && depth <= MAX_NESTING_DEPTH + 1
      modifies this
      ensures Valid()
      ensures match ParseEntries(input, old(Now()), depth, len, None)
              case Err => r.Err?
              case Ok((entries, st)) => r == Ok(entries) && Now() == st
      decreases MAX_NESTING_DEPTH + 2 - depth, len + 2
    {
      hide ParseValue;
      hide ParseKey;
      var entries: seq<Entry> := [];
      var previous: Option<seq<Byte>> := None;
      ghost var all := ParseEntries(input, Now(), depth, len, None);
      assert all.Ok? ==> entries + all.value.0 == all.value.0;
      for i := 0 to len
        invariant Valid()
        invariant all == match ParseEntries(input, Now(), depth, len - i, previous)
                         case Err => Err
                         case Ok((rest, st)) => Ok((entries + rest, st))
      {
        ghost var tail := ParseEntries(input, Now(), depth, len - i, previous);
        var keyStart := offset;
        var key :- ParseMapKey(depth, previous);
        previous := Some(input[keyStart..offset]);
        var value :- Parse(depth);
        assert tail.Ok? ==> entries + tail.value.0 == (entries + [Entry(key, value)]) + tail.value.0[1..];
        entries := entries + [Entry(key, value)];
      }
      assert entries + [] == entries;
      return Ok(entries);
    }

    method ParseMapKey(depth: nat, previous: Option<seq<Byte>>) returns (r: Result<Value>)
      requires Valid() && depth <= MAX_NESTING_DEPTH + 1
      modifies this
      ensures Valid()
      ensures match ParseKey(input, old(Now()), depth, previous)
              case Err => r.Err?
              case Ok((key, st)) => r == Ok(key) && Now() == st && old(offset) <= offset
      decreases MAX_NESTING_DEPTH + 2 - depth, 1
    {
      hide ParseValue;
      var keyStart := offset;
      var key :- Parse(depth);
      var len := offset - keyStart;
      if len > remainingAllocation { return Err; }
      remainingAllocation := remainingAllocation - len;
      if previous.Some? && !Less(previous.value, input[keyStart..offset]) { return Err; }
      return Ok(key);
    }
  }

  method ValidateDeterministic(input: seq<Byte>, limits: Limits) returns (r: Result<Value>)
    ensures r == Validate(input, limits)
  {
    hide ParseValue;
    var parser := new Parser(input, limits);
    var value := parser.Parse(0);
    if value.Err? { return Err; }
    if parser.offset != |input| { return Err; }
    return value;
  }

  // ----- the buffer encoder -----

  function Appended(out: seq<Byte>, r: Result<seq<Byte>>): Result<seq<Byte>> {
    match r case Err => Err case Ok(bytes) => Ok(out + bytes)
  }

  method EncodeValue(v: Value, out: seq<Byte>) returns (r: Result<seq<Byte>>)
    ensures r == Appended(out, Encode(v))
    decreases v
  {
    hide Head;
    match v
    case Integer(n) =>
      if n >= 0 {
        if n > U64_MAX { return Err; }
        return Ok(out + Head(0, n));
      }
      if -(n + 1) > U64_MAX { return Err; }
      return Ok(out + Head(1, -(n + 1)));
    case ByteString(bytes) =>
      if |bytes| > U64_MAX { return Err; }
      assert out + (Head(2, |bytes|) + bytes) == out + Head(2, |bytes|) + bytes;
      return Ok(out + Head(2, |bytes|) + bytes);
    case Text(bytes) =>
      if |bytes| > U64_MAX { return Err; }
      assert out + (Head(3, |bytes|) + bytes) == out + Head(3, |bytes|) + bytes;
      return Ok(out + Head(3, |bytes|) + bytes);
    case Array(items) =>
      if |items| > U64_MAX { return Err; }
      var body := EncodeArray(items, out + Head(4, |items|));
      if EncodeItems(items).Ok? {
        assert out + Head(4, |items|) + EncodeItems(items).value == out + (Head(4, |items|) + EncodeItems(items).value);
      }
      return body;
    case Map(entries) =>
      if |entries| > U64_MAX { return Err; }
      var pairs := EncodePairs(entries);
      if pairs.Err? { return Err; }
      var sorted := Sort(pairs.value);
      var i := 0;
      while i + 1 < |sorted|
        invariant 0 <= i && (sorted == [] ==> i == 0) && (sorted != [] ==> i < |sorted|)
        invariant forall j :: 0 <= j < i ==> Distinct(sorted, j)
      {
        if sorted[i].0 == sorted[i + 1].0 {
          assert !Distinct(sorted, i);
          return Err;
        }
        i := i + 1;
      }
      var bytes := AppendPairs(sorted, out + Head(5, |entries|));
      assert out + Head(5, |entries|) + Flatten(sorted) == out + (Head(5, |entries|) + Flatten(sorted));
      return Ok(bytes);
    case Bool(b) => return Ok(out + [if b then 0xf5 else 0xf4]);
    case Null => return Ok(out + [0xf6]);
  }

  method EncodeArray(items: seq<Value>, out: seq<Byte>) returns (r: Result<seq<Byte>>)
    ensures r == Appended(out, EncodeItems(items))
    decreases items
  {
    hide Encode;
    var bytes := out;
    for i := 0 to |items|
      invariant Appended(out, EncodeItems(items)) == Appended(bytes, EncodeItems(items[i..]))
    {
      var next := EncodeValue(items[i], bytes);
      assert items[i..][1..] == items[i + 1..];
      if next.Err? { return Err; }
      var first := Encode(items[i]).value;
      if EncodeItems(items[i + 1..]).Ok? {
        assert bytes + (first + EncodeItems(items[i + 1..]).value) == (bytes + first) + EncodeItems(items[i + 1..]).value;
      }
      bytes := next.value;
    }
    assert bytes + [] == bytes;
    return Ok(bytes);
  }

  method EncodePairs(entries: seq<Entry>) returns (r: Result<seq<Pair>>)
    ensures r == EncodeEntries(entries)
    decreases entries
  {
    hide Encode;
    var pairs: seq<Pair> := [];
    ghost var all := EncodeEntries(entries);
    assert all.Ok? ==> pairs + all.value == all.value;
    assert entries[0..] == entries;
    for i := 0 to |entries|
      invariant all == match EncodeEntries(entries[i..]) case Err => Err case Ok(rest) => Ok(pairs + rest)
    {
      assert entries[i..][1..] == entries[i + 1..];
      var pair := EncodePair(entries[i]);
      if pair.Err? { return Err; }
      ghost var rest := EncodeEntries(entries[i + 1..]);
      assert rest.Ok? ==> pairs + ([pair.value] + rest.value) == (pairs + [pair.value]) + rest.value;
      pairs := pairs + [pair.value];
    }
    assert pairs + [] == pairs;
    return Ok(pairs);
  }

  method EncodePair(e: Entry) returns (r: Result<Pair>)
    ensures r == EncodeEntry(e)
    decreases e
  {
    hide Encode;
    var key := EncodeValue(e.key, []);
    if key.Err? { return Err; }
    var value := EncodeValue(e.value, []);
    if value.Err? { return Err; }
    assert [] + Encode(e.key).value == Encode(e.key).value && [] + Encode(e.value).value == Encode(e.value).value;
    return Ok((key.value, value.value));
  }

  method AppendPairs(pairs: seq<Pair>, out: seq<Byte>) returns (bytes: seq<Byte>)
    ensures bytes == out + Flatten(pairs)
  {
    bytes := out;
    for i := 0 to |pairs|
      invariant out + Flatten(pairs) == bytes + Flatten(pairs[i..])
    {
      assert pairs[i..][1..] == pairs[i + 1..];
      assert bytes + (pairs[i].0 + pairs[i].1 + Flatten(pairs[i + 1..])) == (bytes + pairs[i].0 + pairs[i].1) + Flatten(pairs[i + 1..]);
      bytes := bytes + pairs[i].0 + pairs[i].1;
    }
    assert bytes + [] == bytes;
  }

  // ----- the measuring pass -----

  /** The checked total, or failure past u64. */
  function Checked(u: Usage): Result<Usage> { if u.FitsU64() then Ok(u) else Err }

  /** `measure_value` fails exactly on an unencodable integer or a total past u64. */
  method MeasureValue(v: Value) returns (r: Result<Usage>)
    ensures r == if Measurable(v) then Checked(Measure(v)) else Err
    decreases v
  {
    match v
    case Integer(n) =>
      var argument := if n >= 0 then n else -(n + 1);
      if argument > U64_MAX { return Err; }
      return Ok(Usage(1, 0, HeadLen(argument)));
    case ByteString(bytes) => r := MeasurePayload(|bytes|);
    case Text(bytes) => r := MeasurePayload(|bytes|);
    case Array(items) =>
      if |items| > U64_MAX { return Err; }
      r := MeasureArray(items, Usage(1, 0, HeadLen(|items|)));
    case Map(entries) =>
      if |entries| > U64_MAX { return Err; }
      r := MeasureMap(entries, Usage(1, 0, HeadLen(|entries|)));
    case Bool(_) => return Ok(Usage(1, 0, 1));
    case Null => return Ok(Usage(1, 0, 1));
  }

  method MeasurePayload(len: nat) returns (r: Result<Usage>)
    ensures r == if len <= U64_MAX then Checked(Usage(1, len, HeadLen(len) + len)) else Err
  {
    if len > U64_MAX || HeadLen(len) + len > U64_MAX { return Err; }
    return Ok(Usage(1, len, HeadLen(len) + len));
  }

  ghost predicate ItemsMeasurable(items: seq<Value>) { forall i :: 0 <= i < |items| ==> Measurable(items[i]) }

  method MeasureArray(items: seq<Value>, start: Usage) returns (r: Result<Usage>)
    requires start.FitsU64()
    ensures r == if ItemsMeasurable(items) then Checked(start.Plus(MeasureItems(items))) else Err
    decreases items
  {
    hide Measure;
    hide Measurable;
    var usage := start;
    assert items[0..] == items;
    for i := 0 to |items|
      invariant usage.FitsU64()
      invariant ItemsMeasurable(items) <==> ItemsMeasurable(items[i..])
      invariant ItemsMeasurable(items) ==> start.Plus(MeasureItems(items)) == usage.Plus(MeasureItems(items[i..]))
    {
      ItemsMeasurableCons(items[i..]);
      assert items[i..][1..] == items[i + 1..];
      var child := MeasureValue(items[i]);
      if child.Err? { return Err; }
      usage := usage.Plus(child.value);
      if !usage.FitsU64() { return Err; }
    }
    return Ok(usage);
  }

  lemma {:induction false} ItemsMeasurableCons(items: seq<Value>)
    requires items != []
    ensures ItemsMeasurable(items) <==> Measurable(items[0]) && ItemsMeasurable(items[1..])
  {
    hide Measurable;
    if Measurable(items[0]) && ItemsMeasurable(items[1..]) {
      forall i | 0 <= i < |items| ensures Measurable(items[i]) { if i > 0 { assert items[i] == items[1..][i - 1]; } }
    }
  }

  method MeasureMap(entries: seq<Entry>, start: Usage) returns (r: Result<Usage>)
    requires start.FitsU64()
    ensures r == if EntriesMeasurable(entries) then Checked(start.Plus(MeasureEntries(entries))) else Err
    decreases entries
  {
    hide Measure;
    hide Measurable;
    var usage := start;
    assert entries[0..] == entries;
    for i := 0 to |entries|
      invariant usage.FitsU64()
      invariant EntriesMeasurable(entries) <==> EntriesMeasurable(entries[i..])
      invariant EntriesMeasurable(entries) ==> start.Plus(MeasureEntries(entries)) == usage.Plus(MeasureEntries(entries[i..]))
    {
      EntriesMeasurableCons(entries[i..]);
      assert entries[i..][1..] == entries[i + 1..];
      var next := MeasurePair(entries[i], usage);
      if next.Err? { return Err; }
      usage := next.value;
    }
    return Ok(usage);
  }

  method MeasurePair(e: Entry, start: Usage) returns (r: Result<Usage>)
    requires start.FitsU64()
    ensures r == if Measurable(e.key) && Measurable(e.value) then Checked(start.Plus(MeasureEntry(e))) else Err
    decreases e
  {
    hide Measure;
    hide Measurable;
    var key := MeasureValue(e.key);
    if key.Err? { return Err; }
    if start.allocation + key.value.encoded > U64_MAX { return Err; }
    var usage := start.(allocation := start.allocation + key.value.encoded);
    usage := usage.Plus(key.value);
    if !usage.FitsU64() { return Err; }
    var value := MeasureValue(e.value);
    if value.Err? { return Err; }
    usage := usage.Plus(value.value);
    if !usage.FitsU64() { return Err; }
    return Ok(usage);
  }

  lemma {:induction false} EntriesMeasurableCons(entries: seq<Entry>)
    requires entries != []
    ensures EntriesMeasurable(entries)
            <==> Measurable(entries[0].key) && Measurable(entries[0].value) && EntriesMeasurable(entries[1..])
  {
    hide Measurable;
    if Measurable(entries[0].key) && Measurable(entries[0].value) && EntriesMeasurable(entries[1..]) {
      forall i | 0 <= i < |entries| ensures Measurable(entries[i].key) && Measurable(entries[i].value) {
        if i > 0 { assert entries[i] == entries[1..][i - 1]; }
      }
    }
  }
}
