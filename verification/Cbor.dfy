/**
 * Deterministic CBOR (sections 3 and 4.2.1 of RFC 8949): values, the encoder
 * with its canonical key order, and the usage units the parser charges.
 */
module Cbor {
  import opened Bytes
  import opened Utf8

  datatype Value =
    | Integer(n: int)
    | ByteString(bytes: seq<Byte>)
    | Text(bytes: seq<Byte>)
    | Array(items: seq<Value>)
    | Map(entries: seq<Entry>)
    | Bool(b: bool)
    | Null

  datatype Entry = Entry(key: Value, value: Value)

  // ----- heads -----

  function BigEndian(v: nat, width: nat): (s: seq<Byte>)
    ensures |s| == width
  {
    if width == 0 then [] else BigEndian(v / 256, width - 1) + [v % 256]
  }

  function FromBigEndian(s: seq<Byte>): nat {
    if s == [] then 0 else FromBigEndian(s[..|s| - 1]) * 256 + s[|s| - 1]
  }

  lemma {:induction false} BigEndianInverse(v: nat, width: nat)
    requires v < Pow256(width)
    ensures FromBigEndian(BigEndian(v, width)) == v
  {
    if width > 0 {
      BigEndianInverse(v / 256, width - 1);
      assert BigEndian(v, width)[..width - 1] == BigEndian(v / 256, width - 1);
    }
  }

  lemma {:induction false} FromBigEndianInverse(s: seq<Byte>)
    ensures FromBigEndian(s) < Pow256(|s|)
    ensures BigEndian(FromBigEndian(s), |s|) == s
    decreases |s|
  {
    if s != [] {
      FromBigEndianInverse(s[..|s| - 1]);
      assert FromBigEndian(s) / 256 == FromBigEndian(s[..|s| - 1]);
      assert s == s[..|s| - 1] + [s[|s| - 1]];
    }
  }

  /** Bytes of argument that follow the initial byte. */
  function ArgumentWidth(value: U64): nat {
    if value <= 23 then 0
    else if value <= 0xff then 1
    else if value <= 0xffff then 2
    else if value <= 0xffff_ffff then 4
    else 8
  }

  /** `head_len` */
  function HeadLen(value: U64): nat {
    if value <= 23 then 1
    else if value <= 0xff then 2
    else if value <= 0xffff then 3
    else if value <= 0xffff_ffff then 5
    else 9
  }

  function AdditionalFor(value: U64): nat {
    match ArgumentWidth(value) case 0 => value case 1 => 24 case 2 => 25 case 4 => 26 case _ => 27
  }

  /** `encode_type_and_argument`: the shortest head for the argument. */
  function Head(major: nat, value: U64): (s: seq<Byte>)
    requires major < 8
    ensures |s| == HeadLen(value)
  {
    [major * 32 + AdditionalFor(value)] + BigEndian(value, ArgumentWidth(value))
  }

  /** `read_argument`: the argument selected by five bits, refused when a shorter form exists. */
  function ReadArgument(input: seq<Byte>, at: nat, additional: nat): (r: Result<(U64, nat)>)
    requires at <= |input|
    ensures r.Ok? ==> at <= r.value.1 <= |input|
  {
    if additional <= 23 then Ok((additional, at))
    else if additional > 27 then Err
    else
      var width := if additional == 24 then 1 else if additional == 25 then 2 else if additional == 26 then 4 else 8;
      if at + width > |input| then Err
      else
        var value := ArgumentOf(input[at..at + width]);
        if ArgumentWidth(value) != width then Err else Ok((value, at + width))
  }

  function ArgumentOf(s: seq<Byte>): (v: U64)
    requires |s| <= 8
  {
    ArgumentInRange(s);
    FromBigEndian(s)
  }

  lemma {:induction false} ArgumentInRange(s: seq<Byte>)
    requires |s| <= 8
    ensures FromBigEndian(s) <= U64_MAX
  {
    FromBigEndianInverse(s);
    Pow256Monotone(|s|, 8);
    Widths();
  }

  lemma {:induction false} Pow256Monotone(i: nat, j: nat)
    requires i <= j
    ensures Pow256(i) <= Pow256(j)
    decreases j - i
  {
    if i < j { Pow256Monotone(i, j - 1); }
  }

  /** Reading at a head gives back its major type and argument. */
  lemma {:induction false} ReadHead(input: seq<Byte>, at: nat, major: nat, value: U64)
    requires major < 8 && at + HeadLen(value) <= |input|
    requires input[at..at + HeadLen(value)] == Head(major, value)
    ensures input[at] / 32 == major && input[at] % 32 == AdditionalFor(value)
    ensures ReadArgument(input, at + 1, input[at] % 32) == Ok((value, at + HeadLen(value)))
  {
    hide BigEndian, FromBigEndian, Pow256;
    var head := Head(major, value);
    assert input[at] == head[0];
    var width := ArgumentWidth(value);
    assert input[at + 1..at + 1 + width] == input[at..at + HeadLen(value)][1..] == BigEndian(value, width);
    if width > 0 {
      ArgumentFits(value);
      BigEndianInverse(value, width);
      assert ArgumentOf(input[at + 1..at + 1 + width]) == value;
    }
  }

  /** The chosen width holds the value. */
  lemma {:induction false} ArgumentFits(value: U64)
    ensures value > 23 ==> value < Pow256(ArgumentWidth(value))
  {
    Widths();
    hide Pow256;
  }

  /** Whatever argument is accepted was written as the shortest head. */
  lemma {:induction false} HeadRead(input: seq<Byte>, at: nat)
    requires at < |input| && ReadArgument(input, at + 1, input[at] % 32).Ok?
    ensures var (value, next) := ReadArgument(input, at + 1, input[at] % 32).value;
            input[at..next] == Head(input[at] / 32, value)
  {
    hide BigEndian, FromBigEndian, Pow256;
    var (value, next) := ReadArgument(input, at + 1, input[at] % 32).value;
    FromBigEndianInverse(input[at + 1..next]);
    assert BigEndian(value, 0) == [];
    assert input[at..next] == [input[at]] + input[at + 1..next];
  }

  // ----- encoder -----

  type Pair = (seq<Byte>, seq<Byte>)

  function Insert(p: Pair, sorted: seq<Pair>): seq<Pair> {
    if sorted == [] || !Less(sorted[0].0, p.0) then [p] + sorted else [sorted[0]] + Insert(p, sorted[1..])
  }

  /** Stable sort by key bytes. */
  function Sort(pairs: seq<Pair>): seq<Pair> {
    if pairs == [] then [] else Insert(pairs[0], Sort(pairs[1..]))
  }

  predicate NoAdjacentDuplicate(pairs: seq<Pair>) {
    forall i :: 0 <= i < |pairs| - 1 ==> Distinct(pairs, i)
  }

  predicate Distinct(pairs: seq<Pair>, i: nat)
    requires i + 1 < |pairs|
  {
    pairs[i].0 != pairs[i + 1].0
  }

  function Flatten(pairs: seq<Pair>): seq<Byte> {
    if pairs == [] then [] else pairs[0].0 + pairs[0].1 + Flatten(pairs[1..])
  }

  function Encode(v: Value): Result<seq<Byte>> {
    match v
    case Integer(n) =>
      if 0 <= n then if n <= U64_MAX then Ok(Head(0, n)) else Err
      else if -(n + 1) <= U64_MAX then Ok(Head(1, -(n + 1))) else Err
    case ByteString(bytes) => if |bytes| <= U64_MAX then Ok(Head(2, |bytes|) + bytes) else Err
    case Text(bytes) => if |bytes| <= U64_MAX then Ok(Head(3, |bytes|) + bytes) else Err
    case Array(items) =>
      if |items| > U64_MAX then Err
      else
        var body :- EncodeItems(items);
        Ok(Head(4, |items|) + body)
    case Map(entries) =>
      if |entries| > U64_MAX then Err
      else
        var pairs :- EncodeEntries(entries);
        if NoAdjacentDuplicate(Sort(pairs)) then Ok(Head(5, |entries|) + Flatten(Sort(pairs))) else Err
    case Bool(b) => Ok([if b then 0xf5 else 0xf4])
    case Null => Ok([0xf6])
  }

  function EncodeItems(items: seq<Value>): Result<seq<Byte>> {
    if items == [] then Ok([])
    else
      var first :- Encode(items[0]);
      var rest :- EncodeItems(items[1..]);
      Ok(first + rest)
  }

  function EncodeEntries(entries: seq<Entry>): (r: Result<seq<Pair>>)
    ensures r.Ok? ==> |r.value| == |entries|
  {
    if entries == [] then Ok([])
    else
      var first :- EncodeEntry(entries[0]);
      var rest :- EncodeEntries(entries[1..]);
      Ok([first] + rest)
  }

  function EncodeEntry(e: Entry): Result<Pair> {
    var key :- Encode(e.key);
    var value :- Encode(e.value);
    Ok((key, value))
  }

  /** Keys strictly ascending in bytewise lexicographic order. */
  predicate Ascending(pairs: seq<Pair>) {
    |pairs| >= 2 ==> Less(pairs[0].0, pairs[1].0) && Ascending(pairs[1..])
  }

  /** Every map lists its entries in canonical key order, without duplicates. */
  predicate Canonical(v: Value) {
    match v
    case Array(items) => forall i :: 0 <= i < |items| ==> Canonical(items[i])
    case Map(entries) =>
      && (forall i :: 0 <= i < |entries| ==> Canonical(entries[i].key) && Canonical(entries[i].value))
      && EncodeEntries(entries).Ok? && Ascending(EncodeEntries(entries).value)
    case _ => true
  }

  /** Rust strings are UTF-8; byte strings need not be. */
  predicate TextsValid(v: Value) {
    match v
    case Text(bytes) => Utf8.Valid(bytes)
    case Array(items) => forall i :: 0 <= i < |items| ==> TextsValid(items[i])
    case Map(entries) => forall i :: 0 <= i < |entries| ==> TextsValid(entries[i].key) && TextsValid(entries[i].value)
    case _ => true
  }

  lemma {:induction false} SortAscending(pairs: seq<Pair>)
    requires Ascending(pairs)
    ensures Sort(pairs) == pairs && NoAdjacentDuplicate(pairs)
    decreases |pairs|
  {
    if |pairs| >= 2 {
      SortAscending(pairs[1..]);
      LessAsymmetric(pairs[0].0, pairs[1].0);
      assert Insert(pairs[0], pairs[1..]) == [pairs[0]] + pairs[1..] == pairs;
      forall i | 0 <= i < |pairs| - 1 ensures Distinct(pairs, i) {
        if i == 0 { LessIrreflexive(pairs[0].0); } else { assert Distinct(pairs[1..], i - 1); }
      }
    } else if |pairs| == 1 {
      assert Sort(pairs[1..]) == [];
      assert pairs == [pairs[0]] + [];
    }
  }

  lemma {:induction false} LessAsymmetric(a: seq<Byte>, b: seq<Byte>)
    requires Less(a, b)
    ensures !Less(b, a)
  {
    if Less(b, a) { LessTransitive(a, b, a); LessIrreflexive(a); }
  }

  // ----- canonical form -----

  function InsertEntry(e: Entry, sorted: seq<Entry>): (r: seq<Entry>)
    requires Encode(e.key).Ok? && forall i :: 0 <= i < |sorted| ==> Encode(sorted[i].key).Ok?
    ensures |r| == |sorted| + 1
    ensures forall i :: 0 <= i < |r| ==> r[i] == e || r[i] in sorted
  {
    if sorted == [] || !Less(Encode(sorted[0].key).value, Encode(e.key).value) then [e] + sorted
    else [sorted[0]] + InsertEntry(e, sorted[1..])
  }

  function SortEntries(entries: seq<Entry>): (r: seq<Entry>)
    requires forall i :: 0 <= i < |entries| ==> Encode(entries[i].key).Ok?
    ensures |r| == |entries|
    ensures forall i :: 0 <= i < |r| ==> r[i] in entries
  {
    if entries == [] then [] else InsertEntry(entries[0], SortEntries(entries[1..]))
  }

  /** The value a reader sees: the same value with every map in canonical key order. */
  function Canon(v: Value): Value
    decreases v
  {
    match v
    case Array(items) => Array(CanonItems(items))
    case Map(entries) =>
      var children := CanonEntries(entries);
      if forall i :: 0 <= i < |children| ==> Encode(children[i].key).Ok? then Map(SortEntries(children)) else v
    case _ => v
  }

  function CanonItems(items: seq<Value>): (r: seq<Value>)
    ensures |r| == |items|
    decreases items
  {
    if items == [] then [] else [Canon(items[0])] + CanonItems(items[1..])
  }

  function CanonEntries(entries: seq<Entry>): (r: seq<Entry>)
    ensures |r| == |entries|
    decreases entries
  {
    if entries == [] then []
    else [CanonEntry(entries[0])] + CanonEntries(entries[1..])
  }

  function CanonEntry(e: Entry): Entry
    decreases e
  {
    Entry(Canon(e.key), Canon(e.value))
  }

  // ----- usage -----

  datatype Usage = Usage(items: nat, allocation: nat, encoded: nat) {
    function Plus(other: Usage): Usage {
      Usage(items + other.items, allocation + other.allocation, encoded + other.encoded)
    }
    predicate FitsU64() { items <= U64_MAX && allocation <= U64_MAX && encoded <= U64_MAX }
  }

  /** Integers have a 64-bit argument and lengths are u64, so every head exists. */
  predicate Measurable(v: Value) {
    match v
    case Integer(n) => -U64_MAX - 1 <= n <= U64_MAX
    case ByteString(bytes) => |bytes| <= U64_MAX
    case Text(bytes) => |bytes| <= U64_MAX
    case Array(items) => |items| <= U64_MAX && forall i :: 0 <= i < |items| ==> Measurable(items[i])
    case Map(entries) =>
      && |entries| <= U64_MAX
      && forall i :: 0 <= i < |entries| ==> Measurable(entries[i].key) && Measurable(entries[i].value)
    case _ => true
  }

  /** Items, payload and key-copy bytes, and encoded bytes of a value. */
  function Measure(v: Value): (u: Usage)
    requires Measurable(v)
    ensures u.items >= 1 && u.encoded >= 1
  {
    match v
    case Integer(n) => Usage(1, 0, HeadLen(if n >= 0 then n else -(n + 1)))
    case ByteString(bytes) => Usage(1, |bytes|, HeadLen(|bytes|) + |bytes|)
    case Text(bytes) => Usage(1, |bytes|, HeadLen(|bytes|) + |bytes|)
    case Array(items) => Usage(1, 0, HeadLen(|items|)).Plus(MeasureItems(items))
    case Map(entries) => Usage(1, 0, HeadLen(|entries|)).Plus(MeasureEntries(entries))
    case _ => Usage(1, 0, 1)
  }

  function MeasureItems(items: seq<Value>): (u: Usage)
    requires forall i :: 0 <= i < |items| ==> Measurable(items[i])
    ensures u.items >= |items|
  {
    if items == [] then Usage(0, 0, 0) else Measure(items[0]).Plus(MeasureItems(items[1..]))
  }

  function MeasureEntry(e: Entry): (u: Usage)
    requires Measurable(e.key) && Measurable(e.value)
  {
    Usage(0, Measure(e.key).encoded, 0).Plus(Measure(e.key)).Plus(Measure(e.value))
  }

  function MeasureEntries(entries: seq<Entry>): (u: Usage)
    requires forall i :: 0 <= i < |entries| ==> Measurable(entries[i].key) && Measurable(entries[i].value)
    ensures u.items >= 2 * |entries|
  {
    if entries == [] then Usage(0, 0, 0) else MeasureEntry(entries[0]).Plus(MeasureEntries(entries[1..]))
  }

  /** Levels below the root. */
  function Depth(v: Value): nat {
    match v
    case Array(items) => DepthItems(items)
    case Map(entries) => DepthEntries(entries)
    case _ => 0
  }

  function DepthItems(items: seq<Value>): nat {
    if items == [] then 0 else Max(1 + Depth(items[0]), DepthItems(items[1..]))
  }

  function DepthEntries(entries: seq<Entry>): nat {
    if entries == [] then 0
    else Max(1 + DepthEntry(entries[0]), DepthEntries(entries[1..]))
  }

  function DepthEntry(e: Entry): nat {
    Max(Depth(e.key), Depth(e.value))
  }
}
