/** The strict parser, its exact accounting, and the inverse theorems with the encoder. */
module CborParser {
  import opened Bytes
  import opened Cbor
  import opened CborCanon
  import Utf8

  const MAX_NESTING_DEPTH: nat := 64

  /** Cursor and the two remaining budgets. */
  datatype State = State(offset: nat, allocation: nat, items: nat)

  function ParseValue(input: seq<Byte>, st: State, depth: nat): (r: Result<(Value, State)>)
    requires st.offset <= |input| && depth <= MAX_NESTING_DEPTH + 1
    ensures r.Ok? ==> st.offset < r.value.1.offset <= |input|
    decreases MAX_NESTING_DEPTH + 2 - depth, 0
  {
    if depth > MAX_NESTING_DEPTH || st.items == 0 || st.offset == |input| then Err
    else
      var initial := input[st.offset];
      var s := State(st.offset + 1, st.allocation, st.items - 1);
      var major, additional := initial / 32, initial % 32;
      if major == 7 then
        var v :- Simple(additional);
        Ok((v, s))
      else if major == 6 then Err
      else
        var (arg, at) :- ReadArgument(input, s.offset, additional);
        if major <= 1 then Ok((Integer(if major == 0 then arg else -1 - arg), s.(offset := at)))
        else if major <= 3 then ParsePayload(input, s.(offset := at), major == 3, arg)
        else if major == 4 then
          if arg > s.items then Err
          else
            var (items, s') :- ParseItems(input, s.(offset := at), depth + 1, arg);
            Ok((Array(items), s'))
        else if arg > s.items / 2 then Err
        else
          var (entries, s') :- ParseEntries(input, s.(offset := at), depth + 1, arg, None);
          Ok((Map(entries), s'))
  }

  function Simple(additional: nat): Result<Value> {
    if additional == 20 then Ok(Bool(false))
    else if additional == 21 then Ok(Bool(true))
    else if additional == 22 then Ok(Null)
    else Err
  }

  function ParsePayload(input: seq<Byte>, s: State, text: bool, len: nat): (r: Result<(Value, State)>)
    requires s.offset <= |input|
    ensures r.Ok? ==> s.offset <= r.value.1.offset <= |input|
  {
    if len > s.allocation || s.offset + len > |input| then Err
    else
      var bytes := input[s.offset..s.offset + len];
      if text && !Utf8.Valid(bytes) then Err
      else Ok((if text then Text(bytes) else ByteString(bytes), State(s.offset + len, s.allocation - len, s.items)))
  }

  function ParseItems(input: seq<Byte>, st: State, depth: nat, n: nat): (r: Result<(seq<Value>, State)>)
    requires st.offset <= |input| && depth <= MAX_NESTING_DEPTH + 1
    ensures r.Ok? ==> st.offset <= r.value.1.offset <= |input|
    decreases MAX_NESTING_DEPTH + 2 - depth, n + 1
  {
    if n == 0 then Ok(([], st))
    else
      var (first, s) :- ParseValue(input, st, depth);
      var (rest, s') :- ParseItems(input, s, depth, n - 1);
      Ok(([first] + rest, s'))
  }

  /** One key: parsed, charged for its copy, and compared with the previous key. */
  function ParseKey(input: seq<Byte>, st: State, depth: nat, previous: Option<seq<Byte>>): (r: Result<(Value, State)>)
    requires st.offset <= |input| && depth <= MAX_NESTING_DEPTH + 1
    ensures r.Ok? ==> st.offset < r.value.1.offset <= |input|
    decreases MAX_NESTING_DEPTH + 2 - depth, 1
  {
    var (key, s) :- ParseValue(input, st, depth);
    var len := s.offset - st.offset;
    if len > s.allocation then Err
    else if previous.Some? && !Less(previous.value, input[st.offset..s.offset]) then Err
    else Ok((key, s.(allocation := s.allocation - len)))
  }

  function ParseEntries(input: seq<Byte>, st: State, depth: nat, n: nat, previous: Option<seq<Byte>>): (r: Result<(seq<Entry>, State)>)
    requires st.offset <= |input| && depth <= MAX_NESTING_DEPTH + 1
    ensures r.Ok? ==> st.offset <= r.value.1.offset <= |input|
    decreases MAX_NESTING_DEPTH + 2 - depth, n + 2
  {
    if n == 0 then Ok(([], st))
    else
      var (key, s1) :- ParseKey(input, st, depth, previous);
      var (value, s2) :- ParseValue(input, s1, depth);
      var (rest, s3) :- ParseEntries(input, s2, depth, n - 1, Some(input[st.offset..s1.offset]));
      Ok(([Entry(key, value)] + rest, s3))
  }

  // ----- soundness: accepted bytes are the encoding of the value -----

  ghost predicate Charged(st: State, st': State, u: Usage) {
    && st'.offset == st.offset + u.encoded
    && st'.allocation + u.allocation == st.allocation
    && st'.items + u.items == st.items
  }

  ghost predicate SoundValue(input: seq<Byte>, st: State, depth: nat, v: Value, st': State) {
    && st.offset <= st'.offset <= |input|
    && Encode(v) == Ok(input[st.offset..st'.offset])
    && Canonical(v) && TextsValid(v)
    && Depth(v) + depth <= MAX_NESTING_DEPTH
    && Measurable(v) && Charged(st, st', Measure(v))
  }

  ghost predicate SoundItems(input: seq<Byte>, st: State, depth: nat, items: seq<Value>, st': State) {
    && st.offset <= st'.offset <= |input|
    && EncodeItems(items) == Ok(input[st.offset..st'.offset])
    && (forall i :: 0 <= i < |items| ==> Canonical(items[i]) && TextsValid(items[i]) && Measurable(items[i]))
    && DepthItems(items) + depth <= MAX_NESTING_DEPTH + 1
    && Charged(st, st', MeasureItems(items))
  }

  ghost predicate SoundEntries(input: seq<Byte>, st: State, depth: nat, entries: seq<Entry>, previous: Option<seq<Byte>>, st': State) {
    && st.offset <= st'.offset <= |input|
    && EncodeEntries(entries).Ok?
    && Flatten(EncodeEntries(entries).value) == input[st.offset..st'.offset]
    && Ascending(EncodeEntries(entries).value)
    && (previous.Some? && entries != [] ==> Less(previous.value, EncodeEntries(entries).value[0].0))
    && EntriesMeasurable(entries)
    && (forall i :: 0 <= i < |entries| ==> EntryGood(entries[i]))
    && DepthEntries(entries) + depth <= MAX_NESTING_DEPTH + 1
    && Charged(st, st', MeasureEntries(entries))
  }

  ghost predicate EntryGood(e: Entry) {
    Canonical(e.key) && Canonical(e.value) && TextsValid(e.key) && TextsValid(e.value)
  }

  lemma {:induction false} ParseSound(input: seq<Byte>, st: State, depth: nat)
    requires st.offset <= |input| && depth <= MAX_NESTING_DEPTH + 1
    requires ParseValue(input, st, depth).Ok?
    ensures var (v, st') := ParseValue(input, st, depth).value; SoundValue(input, st, depth, v, st')
    decreases MAX_NESTING_DEPTH + 2 - depth, 0
  {
    hide SoundValue, SoundItems, SoundEntries, ReadArgument, Head, ParseItems, ParseEntries, ParsePayload;
    var initial := input[st.offset];
    var s := State(st.offset + 1, st.allocation, st.items - 1);
    var major := initial / 32;
    if major == 7 {
      SimpleSound(input, st, depth);
    } else {
      var (arg, at) := ReadArgument(input, s.offset, initial % 32).value;
      HeadRead(input, st.offset);
      if major <= 1 {
        ScalarSound(input, st, depth, arg, at);
      } else if major <= 3 {
        PayloadSound(input, st, depth, arg, at);
      } else if major == 4 {
        ItemsSound(input, s.(offset := at), depth + 1, arg);
        ArraySound(input, st, depth, arg, at);
      } else {
        EntriesSound(input, s.(offset := at), depth + 1, arg, None);
        MapSound(input, st, depth, arg, at);
      }
    }
  }

  lemma {:induction false} SimpleSound(input: seq<Byte>, st: State, depth: nat)
    requires st.offset < |input| && depth <= MAX_NESTING_DEPTH && input[st.offset] / 32 == 7
    requires ParseValue(input, st, depth).Ok?
    ensures var (v, st') := ParseValue(input, st, depth).value; SoundValue(input, st, depth, v, st')
  {
    assert input[st.offset..st.offset + 1] == [input[st.offset]];
  }

  /** What the argument of a non-simple head says. */
  ghost predicate AtHead(input: seq<Byte>, st: State, depth: nat, arg: U64, at: nat) {
    && st.offset < at <= |input| && depth <= MAX_NESTING_DEPTH && st.items > 0 && input[st.offset] / 32 <= 5
    && ReadArgument(input, st.offset + 1, input[st.offset] % 32) == Ok((arg, at))
    && input[st.offset..at] == Head(input[st.offset] / 32, arg)
  }

  lemma {:induction false} ScalarSound(input: seq<Byte>, st: State, depth: nat, arg: U64, at: nat)
    requires AtHead(input, st, depth, arg, at) && input[st.offset] / 32 <= 1
    ensures ParseValue(input, st, depth).Ok?
    ensures var (v, st') := ParseValue(input, st, depth).value; SoundValue(input, st, depth, v, st')
  {
    hide ReadArgument;
    hide Head;
  }

  lemma {:induction false} PayloadSound(input: seq<Byte>, st: State, depth: nat, arg: U64, at: nat)
    requires AtHead(input, st, depth, arg, at) && 2 <= input[st.offset] / 32 <= 3
    requires ParseValue(input, st, depth).Ok?
    ensures var (v, st') := ParseValue(input, st, depth).value; SoundValue(input, st, depth, v, st')
  {
    hide ReadArgument;
    hide Head;
    var (v, st') := ParseValue(input, st, depth).value;
    assert st'.offset == at + arg;
    assert input[st.offset..st'.offset] == input[st.offset..at] + input[at..st'.offset];
  }

  lemma {:induction false} ArraySound(input: seq<Byte>, st: State, depth: nat, arg: U64, at: nat)
    requires AtHead(input, st, depth, arg, at) && input[st.offset] / 32 == 4
    requires ParseValue(input, st, depth).Ok?
    requires var s := State(at, st.allocation, st.items - 1);
             && ParseItems(input, s, depth + 1, arg).Ok?
             && var (items, s') := ParseItems(input, s, depth + 1, arg).value;
                |items| == arg && SoundItems(input, s, depth + 1, items, s')
    ensures var (v, st') := ParseValue(input, st, depth).value; SoundValue(input, st, depth, v, st')
  {
    hide ReadArgument;
    hide Head;
    hide ParseItems;
    hide EncodeItems;
    hide MeasureItems;
    hide DepthItems;
    var (items, s') := ParseItems(input, State(at, st.allocation, st.items - 1), depth + 1, arg).value;
    assert input[st.offset..s'.offset] == input[st.offset..at] + input[at..s'.offset];
    assert ParseValue(input, st, depth) == Ok((Array(items), s'));
  }

  lemma {:induction false} MapSound(input: seq<Byte>, st: State, depth: nat, arg: U64, at: nat)
    requires AtHead(input, st, depth, arg, at) && input[st.offset] / 32 == 5
    requires ParseValue(input, st, depth).Ok?
    requires var s := State(at, st.allocation, st.items - 1);
             && ParseEntries(input, s, depth + 1, arg, None).Ok?
             && var (entries, s') := ParseEntries(input, s, depth + 1, arg, None).value;
                |entries| == arg && SoundEntries(input, s, depth + 1, entries, None, s')
    ensures var (v, st') := ParseValue(input, st, depth).value; SoundValue(input, st, depth, v, st')
  {
    hide ReadArgument;
    hide Head;
    hide ParseEntries;
    hide EncodeEntries;
    hide MeasureEntries;
    hide DepthEntries;
    hide Flatten;
    hide Sort;
    hide Ascending;
    var (entries, s') := ParseEntries(input, State(at, st.allocation, st.items - 1), depth + 1, arg, None).value;
    SortAscending(EncodeEntries(entries).value);
    assert input[st.offset..s'.offset] == input[st.offset..at] + input[at..s'.offset];
    assert ParseValue(input, st, depth) == Ok((Map(entries), s'));
    assert forall i :: 0 <= i < |entries| ==> EntryGood(entries[i]);
    hide ParseValue;
    assert Canonical(Map(entries)) && TextsValid(Map(entries)) && Measurable(Map(entries));
  }

  lemma {:induction false} ItemsSound(input: seq<Byte>, st: State, depth: nat, n: nat)
    requires st.offset <= |input| && depth <= MAX_NESTING_DEPTH + 1
    requires ParseItems(input, st, depth, n).Ok?
    ensures var (items, st') := ParseItems(input, st, depth, n).value;
            |items| == n && SoundItems(input, st, depth, items, st')
    decreases MAX_NESTING_DEPTH + 2 - depth, n + 1
  {
    hide ParseValue;
    hide SoundValue;
    if n == 0 {
      assert input[st.offset..st.offset] == [];
    } else {
      hide SoundItems;
      ParseSound(input, st, depth);
      var (first, s) := ParseValue(input, st, depth).value;
      ItemsSound(input, s, depth, n - 1);
      var (rest, s') := ParseItems(input, s, depth, n - 1).value;
      ItemsSoundCons(input, st, depth, first, s, rest, s');
    }
  }

  lemma {:induction false} ItemsSoundCons(input: seq<Byte>, st: State, depth: nat, first: Value, s: State, rest: seq<Value>, s': State)
    requires SoundValue(input, st, depth, first, s) && SoundItems(input, s, depth, rest, s')
    ensures SoundItems(input, st, depth, [first] + rest, s')
  {
    hide Encode;
    hide Measure;
    hide Depth;
    hide Canonical;
    hide TextsValid;
    hide Measurable;
    var items := [first] + rest;
    assert items[1..] == rest;
    assert input[st.offset..s'.offset] == input[st.offset..s.offset] + input[s.offset..s'.offset];
  }

  lemma {:induction false} EntriesSound(input: seq<Byte>, st: State, depth: nat, n: nat, previous: Option<seq<Byte>>)
    requires st.offset <= |input| && depth <= MAX_NESTING_DEPTH + 1
    requires ParseEntries(input, st, depth, n, previous).Ok?
    ensures var (entries, st') := ParseEntries(input, st, depth, n, previous).value;
            |entries| == n && SoundEntries(input, st, depth, entries, previous, st')
    decreases MAX_NESTING_DEPTH + 2 - depth, n + 2
  {
    hide ParseValue;
    hide SoundValue;
    if n == 0 {
      EntriesSoundNil(input, st, depth, previous);
    } else {
      hide SoundEntries;
      hide SoundEntry;
      hide EncodedKey;
      hide Less;
      ParseSound(input, st, depth);
      var (key, s0) := ParseValue(input, st, depth).value;
      var (_, s1) := ParseKey(input, st, depth, previous).value;
      ParseSound(input, s1, depth);
      var (value, s2) := ParseValue(input, s1, depth).value;
      var keyBytes := input[st.offset..s1.offset];
      EntriesSound(input, s2, depth, n - 1, Some(keyBytes));
      var (rest, s3) := ParseEntries(input, s2, depth, n - 1, Some(keyBytes)).value;
      EntrySound(input, st, depth, Entry(key, value), s0, s1, s2);
      EntriesSoundCons(input, st, depth, Entry(key, value), s2, rest, previous, s3);
    }
  }

  lemma {:induction false} EntriesSoundNil(input: seq<Byte>, st: State, depth: nat, previous: Option<seq<Byte>>)
    requires st.offset <= |input| && depth <= MAX_NESTING_DEPTH + 1
    ensures SoundEntries(input, st, depth, [], previous, st)
  {
    assert input[st.offset..st.offset] == [];
  }

  ghost predicate SoundEntry(input: seq<Byte>, st: State, depth: nat, e: Entry, st': State) {
    && st.offset <= st'.offset <= |input|
    && EncodeEntry(e).Ok? && input[st.offset..st'.offset] == EncodeEntry(e).value.0 + EncodeEntry(e).value.1
    && Measurable(e.key) && Measurable(e.value) && EntryGood(e)
    && DepthEntry(e) + depth <= MAX_NESTING_DEPTH
    && Charged(st, st', MeasureEntry(e))
  }

  lemma {:induction false} EntrySound(input: seq<Byte>, st: State, depth: nat, e: Entry, s0: State, s1: State, s2: State)
    requires SoundValue(input, st, depth, e.key, s0) && SoundValue(input, s1, depth, e.value, s2)
    requires s1.offset == s0.offset && s1.items == s0.items && s1.allocation + (s0.offset - st.offset) == s0.allocation
    ensures SoundEntry(input, st, depth, e, s2) && EncodedKey(e) == input[st.offset..s0.offset]
  {
    hide Encode;
    hide Measure;
    hide Depth;
    hide Canonical;
    hide TextsValid;
    hide Measurable;
    assert input[st.offset..s2.offset] == input[st.offset..s0.offset] + input[s1.offset..s2.offset];
  }

  lemma {:induction false} EntriesSoundCons(input: seq<Byte>, st: State, depth: nat, e: Entry, s2: State, rest: seq<Entry>, previous: Option<seq<Byte>>, s3: State)
    requires SoundEntry(input, st, depth, e, s2)
    requires previous.Some? ==> Less(previous.value, EncodedKey(e))
    requires SoundEntries(input, s2, depth, rest, Some(EncodedKey(e)), s3)
    ensures SoundEntries(input, st, depth, [e] + rest, previous, s3)
  {
    hide EncodeEntry;
    hide MeasureEntry;
    hide DepthEntry;
    hide EntryGood;
    hide Measurable;
    hide Less;
    var (k, w) := EncodeEntry(e).value;
    EncodeEntriesCons(e, rest, k, w);
    MeasureEntriesCons(e, rest);
    hide EncodeEntries;
    hide MeasureEntries;
    hide DepthEntries;
    hide Ascending;
    hide Flatten;
    var entries := [e] + rest;
    assert input[st.offset..s3.offset] == input[st.offset..s2.offset] + input[s2.offset..s3.offset];
    forall i | 0 <= i < |entries| ensures EntryGood(entries[i]) { if i > 0 { assert EntryGood(rest[i - 1]); } }
  }

  ghost function EncodedKey(e: Entry): seq<Byte> {
    if EncodeEntry(e).Ok? then EncodeEntry(e).value.0 else []
  }

  lemma {:induction false} EncodeEntriesCons(e: Entry, rest: seq<Entry>, keyBytes: seq<Byte>, valueBytes: seq<Byte>)
    requires EncodeEntry(e) == Ok((keyBytes, valueBytes)) && EncodeEntries(rest).Ok? && Ascending(EncodeEntries(rest).value)
    requires rest != [] ==> Less(keyBytes, EncodeEntries(rest).value[0].0)
    ensures var all := EncodeEntries([e] + rest);
            && all == Ok([(keyBytes, valueBytes)] + EncodeEntries(rest).value)
            && Ascending(all.value)
            && Flatten(all.value) == keyBytes + valueBytes + Flatten(EncodeEntries(rest).value)
  {
    hide Encode;
    hide EncodeEntry;
    hide Less;
    assert ([e] + rest)[1..] == rest;
    var pairs := [(keyBytes, valueBytes)] + EncodeEntries(rest).value;
    assert pairs[1..] == EncodeEntries(rest).value;
  }

  lemma {:induction false} MeasureEntriesCons(e: Entry, rest: seq<Entry>)
    requires Measurable(e.key) && Measurable(e.value) && EntriesMeasurable(rest)
    ensures EntriesMeasurable([e] + rest)
    ensures MeasureEntries([e] + rest) == MeasureEntry(e).Plus(MeasureEntries(rest))
    ensures DepthEntries([e] + rest) == Max(1 + DepthEntry(e), DepthEntries(rest))
  {
    hide MeasureEntry;
    hide DepthEntry;
    assert ([e] + rest)[1..] == rest;
  }

  // ----- completeness: an encoding is accepted exactly within its charges -----

  /** Success with exactly the measured charges, or failure. */
  ghost function Expected<T>(x: T, st: State, u: Usage, shallow: bool): Result<(T, State)> {
    if shallow && u.items <= st.items && u.allocation <= st.allocation
    then Ok((x, State(st.offset + u.encoded, st.allocation - u.allocation, st.items - u.items)))
    else Err
  }

  /** Charging twice in a row is charging the sum. */
  lemma {:induction false} Compose<T, U, V>(x: T, y: U, z: V, st: State, u1: Usage, b1: bool, u2: Usage, b2: bool)
    ensures var first := Expected(x, st, u1, b1);
            var whole := Expected(z, st, u1.Plus(u2), b1 && b2);
            && (first.Err? ==> whole.Err?)
            && (first.Ok? ==>
                  match Expected(y, first.value.1, u2, b2)
                  case Err => whole.Err?
                  case Ok((_, s)) => whole == Ok((z, s)))
  {
  }

  ghost predicate Follows(input: seq<Byte>, st: State, bytes: seq<Byte>, rest: seq<Byte>) {
    st.offset <= |input| && input[st.offset..] == bytes + rest
  }

  lemma {:induction false} Advance(input: seq<Byte>, st: State, a: seq<Byte>, b: seq<Byte>, rest: seq<Byte>, s: State)
    requires Follows(input, st, a + b, rest) && s.offset == st.offset + |a|
    ensures st.offset + |a| <= |input| && input[st.offset..s.offset] == a && Follows(input, s, b, rest)
  {
    assert input[st.offset..] == a + (b + rest);
    assert input[st.offset..s.offset] == input[st.offset..][..|a|];
    assert input[s.offset..] == input[st.offset..][|a|..];
  }

  lemma {:induction false} FollowsSplit(input: seq<Byte>, st: State, a: seq<Byte>, b: seq<Byte>, rest: seq<Byte>)
    requires Follows(input, st, a + b, rest)
    ensures Follows(input, st, a, b + rest)
  {
    assert (a + b) + rest == a + (b + rest);
  }

  lemma {:induction false} EncodeEntryParts(e: Entry)
    requires EncodeEntry(e).Ok?
    ensures Encode(e.key) == Ok(EncodeEntry(e).value.0) && Encode(e.value) == Ok(EncodeEntry(e).value.1)
  {
  }

  lemma {:induction false} FollowsInside(input: seq<Byte>, st: State, a: seq<Byte>, rest: seq<Byte>)
    requires Follows(input, st, a, rest)
    ensures st.offset <= |input|
  {
  }

  lemma {:induction false} FollowsState(input: seq<Byte>, s: State, s': State, a: seq<Byte>, rest: seq<Byte>)
    requires Follows(input, s, a, rest) && s.offset == s'.offset
    ensures Follows(input, s', a, rest)
  {
  }

  lemma {:induction false} EntryGoodParts(e: Entry)
    requires EntryGood(e)
    ensures Canonical(e.key) && Canonical(e.value) && TextsValid(e.key) && TextsValid(e.value)
  {
  }

  lemma {:induction false} ParseComplete(v: Value, input: seq<Byte>, st: State, depth: nat, rest: seq<Byte>)
    requires depth <= MAX_NESTING_DEPTH + 1
    requires Encode(v).Ok? && Canonical(v) && TextsValid(v) && Follows(input, st, Encode(v).value, rest)
    ensures Measurable(v) && ParseValue(input, st, depth) == Expected(v, st, Measure(v), Depth(v) + depth <= MAX_NESTING_DEPTH)
    decreases v
  {
    hide *;
    FollowsInside(input, st, Encode(v).value, rest);
    EncodeLength(v);
    if depth > MAX_NESTING_DEPTH || st.items == 0 {
      RefusedOutright(v, input, st, depth);
    } else {
      match v
      case Array(items) =>
        var s := ArrayStart(items, input, st, rest);
        ItemsComplete(items, input, s, depth + 1, rest);
        ArrayComplete(items, input, st, depth, s);
      case Map(entries) =>
        var s := MapStart(entries, input, st, rest);
        EntriesComplete(entries, input, s, depth + 1, None, rest);
        MapComplete(entries, input, st, depth, s);
      case Integer(_) => LeafComplete(v, input, st, depth, rest);
      case ByteString(_) => LeafComplete(v, input, st, depth, rest);
      case Text(_) => LeafComplete(v, input, st, depth, rest);
      case Bool(_) => LeafComplete(v, input, st, depth, rest);
      case Null => LeafComplete(v, input, st, depth, rest);
    }
  }

  lemma {:induction false} RefusedOutright(v: Value, input: seq<Byte>, st: State, depth: nat)
    requires st.offset <= |input| && depth <= MAX_NESTING_DEPTH + 1 && Measurable(v)
    requires depth > MAX_NESTING_DEPTH || st.items == 0
    ensures ParseValue(input, st, depth) == Expected(v, st, Measure(v), Depth(v) + depth <= MAX_NESTING_DEPTH)
  {
    hide Depth;
  }

  lemma {:induction false} ArrayStart(items: seq<Value>, input: seq<Byte>, st: State, rest: seq<Byte>) returns (s: State)
    requires st.items > 0 && Encode(Array(items)).Ok? && Canonical(Array(items)) && TextsValid(Array(items))
    requires Follows(input, st, Encode(Array(items)).value, rest)
    ensures |items| <= U64_MAX && HeadAt(input, st, 4, |items|, s)
    ensures EncodeItems(items).Ok? && Follows(input, s, EncodeItems(items).value, rest)
    ensures forall i :: 0 <= i < |items| ==> Canonical(items[i]) && TextsValid(items[i])
  {
    hide EncodeItems;
    hide ReadArgument;
    var head := Head(4, |items|);
    s := State(st.offset + |head|, st.allocation, st.items - 1);
    Advance(input, st, head, EncodeItems(items).value, rest, s);
    ReadHead(input, st.offset, 4, |items|);
  }

  lemma {:induction false} MapStart(entries: seq<Entry>, input: seq<Byte>, st: State, rest: seq<Byte>) returns (s: State)
    requires st.items > 0 && Encode(Map(entries)).Ok? && Canonical(Map(entries)) && TextsValid(Map(entries))
    requires Follows(input, st, Encode(Map(entries)).value, rest)
    ensures |entries| <= U64_MAX && HeadAt(input, st, 5, |entries|, s)
    ensures EncodeEntries(entries).Ok? && Ascending(EncodeEntries(entries).value)
    ensures Follows(input, s, Flatten(EncodeEntries(entries).value), rest)
    ensures forall i :: 0 <= i < |entries| ==> EntryGood(entries[i])
  {
    hide EncodeEntries;
    hide ReadArgument;
    hide Flatten;
    hide Ascending;
    hide Sort;
    var head, pairs := Head(5, |entries|), EncodeEntries(entries).value;
    s := State(st.offset + |head|, st.allocation, st.items - 1);
    SortAscending(pairs);
    Advance(input, st, head, Flatten(pairs), rest, s);
    ReadHead(input, st.offset, 5, |entries|);
  }

  lemma {:induction false} LeafComplete(v: Value, input: seq<Byte>, st: State, depth: nat, rest: seq<Byte>)
    requires depth <= MAX_NESTING_DEPTH && st.items > 0 && !v.Array? && !v.Map?
    requires Encode(v).Ok? && Measurable(v) && TextsValid(v) && Follows(input, st, Encode(v).value, rest)
    ensures ParseValue(input, st, depth) == Expected(v, st, Measure(v), Depth(v) + depth <= MAX_NESTING_DEPTH)
  {
    hide ReadArgument, ParseValue;
    match v
    case Integer(n) => IntegerComplete(n, input, st, depth, rest);
    case ByteString(bytes) => PayloadComplete(false, bytes, input, st, depth, rest);
    case Text(bytes) => PayloadComplete(true, bytes, input, st, depth, rest);
    case Bool(_) => SimpleComplete(v, input, st, depth, rest);
    case Null => SimpleComplete(v, input, st, depth, rest);
  }

  lemma {:induction false} IntegerComplete(n: int, input: seq<Byte>, st: State, depth: nat, rest: seq<Byte>)
    requires depth <= MAX_NESTING_DEPTH && st.items > 0
    requires Encode(Integer(n)).Ok? && Measurable(Integer(n)) && Follows(input, st, Encode(Integer(n)).value, rest)
    ensures ParseValue(input, st, depth) == Expected(Integer(n), st, Measure(Integer(n)), true)
  {
    var major := if n >= 0 then 0 else 1;
    var arg := if n >= 0 then n else -(n + 1);
    var head := Head(major, arg);
    assert head + [] == head;
    Advance(input, st, head, [], rest, State(st.offset + |head|, 0, 0));
    ReadHead(input, st.offset, major, arg);
    hide ReadArgument;
    hide Head;
  }

  lemma {:induction false} SimpleComplete(v: Value, input: seq<Byte>, st: State, depth: nat, rest: seq<Byte>)
    requires depth <= MAX_NESTING_DEPTH && st.items > 0 && (v.Bool? || v.Null?)
    requires Encode(v).Ok? && Measurable(v) && Follows(input, st, Encode(v).value, rest)
    ensures ParseValue(input, st, depth) == Expected(v, st, Measure(v), true)
  {
    hide ReadArgument;
    assert input[st.offset] == input[st.offset..][0];
  }

  lemma {:induction false} PayloadComplete(text: bool, bytes: seq<Byte>, input: seq<Byte>, st: State, depth: nat, rest: seq<Byte>)
    requires depth <= MAX_NESTING_DEPTH && st.items > 0 && |bytes| <= U64_MAX && (text ==> Utf8.Valid(bytes))
    requires Follows(input, st, Head(if text then 3 else 2, |bytes|) + bytes, rest)
    ensures var v := if text then Text(bytes) else ByteString(bytes);
            ParseValue(input, st, depth) == Expected(v, st, Measure(v), true)
  {
    hide ReadArgument, Head, Utf8.Valid, Follows, Pow256;
    var major := if text then 3 else 2;
    var head := Head(major, |bytes|);
    var s := State(st.offset + |head|, st.allocation, st.items - 1);
    Advance(input, st, head, bytes, rest, s);
    ReadHead(input, st.offset, major, |bytes|);
    assert bytes + [] == bytes && bytes + rest == bytes + ([] + rest);
    Advance(input, s, bytes, [], rest, State(s.offset + |bytes|, 0, 0));
  }

  ghost predicate HeadAt(input: seq<Byte>, st: State, major: nat, arg: U64, s: State) {
    && st.offset < |input| && st.items > 0
    && input[st.offset] / 32 == major
    && ReadArgument(input, st.offset + 1, input[st.offset] % 32) == Ok((arg, s.offset))
    && s.offset == st.offset + HeadLen(arg) <= |input|
    && s.allocation == st.allocation && s.items == st.items - 1
  }

  lemma {:induction false} ArrayComplete(items: seq<Value>, input: seq<Byte>, st: State, depth: nat, s: State)
    requires depth <= MAX_NESTING_DEPTH && |items| <= U64_MAX && HeadAt(input, st, 4, |items|, s)
    requires forall i :: 0 <= i < |items| ==> Measurable(items[i])
    requires ParseItems(input, s, depth + 1, |items|)
             == Expected(items, s, MeasureItems(items), DepthItems(items) + depth + 1 <= MAX_NESTING_DEPTH + 1)
    ensures var v := Array(items);
            ParseValue(input, st, depth) == Expected(v, st, Measure(v), Depth(v) + depth <= MAX_NESTING_DEPTH)
  {
    hide ReadArgument;
    hide ParseItems;
    hide MeasureItems;
    hide DepthItems;
  }

  lemma {:induction false} MapComplete(entries: seq<Entry>, input: seq<Byte>, st: State, depth: nat, s: State)
    requires depth <= MAX_NESTING_DEPTH && |entries| <= U64_MAX && HeadAt(input, st, 5, |entries|, s)
    requires EntriesMeasurable(entries)
    requires ParseEntries(input, s, depth + 1, |entries|, None)
             == Expected(entries, s, MeasureEntries(entries), DepthEntries(entries) + depth + 1 <= MAX_NESTING_DEPTH + 1)
    ensures var v := Map(entries);
            ParseValue(input, st, depth) == Expected(v, st, Measure(v), Depth(v) + depth <= MAX_NESTING_DEPTH)
  {
    hide ReadArgument;
    hide ParseEntries;
    hide MeasureEntries;
    hide DepthEntries;
  }

  lemma {:induction false} ItemsComplete(items: seq<Value>, input: seq<Byte>, st: State, depth: nat, rest: seq<Byte>)
    requires depth <= MAX_NESTING_DEPTH + 1 && EncodeItems(items).Ok?
    requires forall i :: 0 <= i < |items| ==> Canonical(items[i]) && TextsValid(items[i])
    requires Follows(input, st, EncodeItems(items).value, rest)
    ensures forall i :: 0 <= i < |items| ==> Measurable(items[i])
    ensures ParseItems(input, st, depth, |items|)
            == Expected(items, st, MeasureItems(items), DepthItems(items) + depth <= MAX_NESTING_DEPTH + 1)
    decreases items
  {
    EncodeItemsLength(items);
    if items != [] {
      var a, b := Encode(items[0]).value, EncodeItems(items[1..]).value;
      assert (a + b) + rest == a + (b + rest);
      ParseComplete(items[0], input, st, depth, b + rest);
      EncodeLength(items[0]);
      if ParseValue(input, st, depth).Ok? {
        var s := ParseValue(input, st, depth).value.1;
        Advance(input, st, a, b, rest, s);
        ItemsComplete(items[1..], input, s, depth, rest);
      }
      ItemsCompleteCons(items, input, st, depth);
    } else {
      assert ParseItems(input, st, depth, 0) == Ok(([], st));
    }
  }

  lemma {:induction false} ItemsCompleteCons(items: seq<Value>, input: seq<Byte>, st: State, depth: nat)
    requires st.offset <= |input| && depth <= MAX_NESTING_DEPTH + 1 && items != []
    requires forall i :: 0 <= i < |items| ==> Measurable(items[i])
    requires ParseValue(input, st, depth)
             == Expected(items[0], st, Measure(items[0]), Depth(items[0]) + depth <= MAX_NESTING_DEPTH)
    requires ParseValue(input, st, depth).Ok? ==>
               var s := ParseValue(input, st, depth).value.1;
               ParseItems(input, s, depth, |items| - 1)
               == Expected(items[1..], s, MeasureItems(items[1..]), DepthItems(items[1..]) + depth <= MAX_NESTING_DEPTH + 1)
    ensures ParseItems(input, st, depth, |items|)
            == Expected(items, st, MeasureItems(items), DepthItems(items) + depth <= MAX_NESTING_DEPTH + 1)
  {
    hide ParseValue;
    hide Measure;
    hide Measurable;
    hide Depth;
    Compose(items[0], items[1..], items, st,
            Measure(items[0]), Depth(items[0]) + depth <= MAX_NESTING_DEPTH,
            MeasureItems(items[1..]), DepthItems(items[1..]) + depth <= MAX_NESTING_DEPTH + 1);
    hide Expected;
    assert items == [items[0]] + items[1..];
  }

  lemma {:induction false} EntriesComplete(entries: seq<Entry>, input: seq<Byte>, st: State, depth: nat, previous: Option<seq<Byte>>, rest: seq<Byte>)
    requires depth <= MAX_NESTING_DEPTH + 1 && EncodeEntries(entries).Ok? && Ascending(EncodeEntries(entries).value)
    requires forall i :: 0 <= i < |entries| ==> EntryGood(entries[i])
    requires previous.Some? && entries != [] ==> Less(previous.value, EncodeEntries(entries).value[0].0)
    requires Follows(input, st, Flatten(EncodeEntries(entries).value), rest)
    ensures EntriesMeasurable(entries)
    ensures ParseEntries(input, st, depth, |entries|, previous)
            == Expected(entries, st, MeasureEntries(entries), DepthEntries(entries) + depth <= MAX_NESTING_DEPTH + 1)
    decreases entries
  {
    EncodeEntriesLength(entries);
    assert EntriesMeasurable(entries) && st.offset <= |input|;
    hide *;
    if entries != [] {
      var first, tail := EntriesHead(entries);
      var (k, w) := first;
      EntryGoodParts(entries[0]);
      FollowsSplit(input, st, k + w, tail, rest);
      assert ((k + w) + tail) + rest == (k + w) + (tail + rest);
      EntryComplete(entries[0], input, st, depth, previous, tail + rest);
      var after := ParseEntry(input, st, depth, previous);
      if after.Ok? {
        var s := after.value.1;
        EncodeEntryLength(entries[0]);
        ExpectedOffset(entries[0], st, MeasureEntry(entries[0]), DepthEntry(entries[0]) + depth <= MAX_NESTING_DEPTH);
        Advance(input, st, k + w, tail, rest, s);
        EntriesComplete(entries[1..], input, s, depth, Some(k), rest);
      }
      EntriesCompleteCons(entries, input, st, depth, previous, k);
    } else {
      EntriesCompleteNil(input, st, depth, previous);
    }
  }

  lemma {:induction false} EntriesCompleteNil(input: seq<Byte>, st: State, depth: nat, previous: Option<seq<Byte>>)
    requires st.offset <= |input| && depth <= MAX_NESTING_DEPTH + 1
    ensures ParseEntries(input, st, depth, 0, previous)
            == Expected([], st, MeasureEntries([]), DepthEntries([]) + depth <= MAX_NESTING_DEPTH + 1)
  {
  }

  lemma {:induction false} ExpectedOffset<T>(x: T, st: State, u: Usage, shallow: bool)
    requires Expected(x, st, u, shallow).Ok?
    ensures Expected(x, st, u, shallow).value.1.offset == st.offset + u.encoded
  {
  }

  lemma {:induction false} EntriesHead(entries: seq<Entry>) returns (first: Pair, tail: seq<Byte>)
    requires entries != [] && EncodeEntries(entries).Ok? && Ascending(EncodeEntries(entries).value)
    ensures EncodeEntry(entries[0]) == Ok(first) && EncodeEntries(entries).value[0] == first
    ensures EncodeEntries(entries[1..]).Ok? && Ascending(EncodeEntries(entries[1..]).value)
    ensures tail == Flatten(EncodeEntries(entries[1..]).value)
    ensures Flatten(EncodeEntries(entries).value) == first.0 + first.1 + tail
    ensures |entries| > 1 ==> Less(first.0, EncodeEntries(entries[1..]).value[0].0)
  {
    hide EncodeEntry;
    hide Less;
    first := EncodeEntry(entries[0]).value;
    tail := Flatten(EncodeEntries(entries[1..]).value);
    assert EncodeEntries(entries).value[1..] == EncodeEntries(entries[1..]).value;
  }

  /** One whole entry, as the map loop reads it. */
  ghost function ParseEntry(input: seq<Byte>, st: State, depth: nat, previous: Option<seq<Byte>>): (r: Result<(Entry, State)>)
    requires st.offset <= |input| && depth <= MAX_NESTING_DEPTH + 1
    ensures r.Ok? ==> st.offset < r.value.1.offset <= |input|
  {
    var (key, s1) :- ParseKey(input, st, depth, previous);
    var (value, s2) :- ParseValue(input, s1, depth);
    Ok((Entry(key, value), s2))
  }

  lemma {:induction false} EntryComplete(e: Entry, input: seq<Byte>, st: State, depth: nat, previous: Option<seq<Byte>>, rest: seq<Byte>)
    requires depth <= MAX_NESTING_DEPTH + 1 && EncodeEntry(e).Ok?
    requires Canonical(e.key) && Canonical(e.value) && TextsValid(e.key) && TextsValid(e.value)
    requires previous.Some? ==> Less(previous.value, EncodeEntry(e).value.0)
    requires Follows(input, st, EncodeEntry(e).value.0 + EncodeEntry(e).value.1, rest)
    ensures Measurable(e.key) && Measurable(e.value)
    ensures ParseEntry(input, st, depth, previous)
            == Expected(e, st, MeasureEntry(e), DepthEntry(e) + depth <= MAX_NESTING_DEPTH)
    ensures ParseEntry(input, st, depth, previous).Ok? ==>
              && ParseKey(input, st, depth, previous).Ok?
              && input[st.offset..ParseKey(input, st, depth, previous).value.1.offset] == EncodeEntry(e).value.0
    decreases e
  {
    hide *;
    EncodeEntryLength(e);
    EncodeEntryParts(e);
    var (k, w) := EncodeEntry(e).value;
    assert (k + w) + rest == k + (w + rest);
    FollowsSplit(input, st, k, w, rest);
    ParseComplete(e.key, input, st, depth, w + rest);
    if ParseValue(input, st, depth).Ok? {
      var s := ParseValue(input, st, depth).value.1;
      ExpectedOffset(e.key, st, Measure(e.key), Depth(e.key) + depth <= MAX_NESTING_DEPTH);
      Advance(input, st, k, w, rest, s);
      if |k| <= s.allocation {
        FollowsState(input, s, s.(allocation := s.allocation - |k|), w, rest);
        ParseComplete(e.value, input, s.(allocation := s.allocation - |k|), depth, rest);
      }
    }
    EntryCompleteCharge(e, input, st, depth, previous, k);
  }

  /** A key is charged for itself and again for its copied bytes. */
  lemma {:induction false} EntryCompleteCharge(e: Entry, input: seq<Byte>, st: State, depth: nat, previous: Option<seq<Byte>>, k: seq<Byte>)
    requires st.offset <= |input| && depth <= MAX_NESTING_DEPTH + 1 && Measurable(e.key) && Measurable(e.value)
    requires |k| == Measure(e.key).encoded && (previous.Some? ==> Less(previous.value, k))
    requires ParseValue(input, st, depth) == Expected(e.key, st, Measure(e.key), Depth(e.key) + depth <= MAX_NESTING_DEPTH)
    requires ParseValue(input, st, depth).Ok? ==>
               var s := ParseValue(input, st, depth).value.1;
               && input[st.offset..s.offset] == k
               && (|k| <= s.allocation ==>
                     var s1 := s.(allocation := s.allocation - |k|);
                     ParseValue(input, s1, depth) == Expected(e.value, s1, Measure(e.value), Depth(e.value) + depth <= MAX_NESTING_DEPTH))
    ensures ParseEntry(input, st, depth, previous)
            == Expected(e, st, MeasureEntry(e), DepthEntry(e) + depth <= MAX_NESTING_DEPTH)
    ensures ParseEntry(input, st, depth, previous).Ok? ==>
              && ParseKey(input, st, depth, previous).Ok?
              && input[st.offset..ParseKey(input, st, depth, previous).value.1.offset] == k
  {
    hide ParseValue;
    hide Measure;
    hide Measurable;
    hide Depth;
    hide Less;
    var copy := Usage(0, |k|, 0);
    Compose(e.key, e.key, e.key, st, Measure(e.key), Depth(e.key) + depth <= MAX_NESTING_DEPTH, copy, true);
    Compose(e.key, e.value, e, st, Measure(e.key).Plus(copy), Depth(e.key) + depth <= MAX_NESTING_DEPTH,
            Measure(e.value), Depth(e.value) + depth <= MAX_NESTING_DEPTH);
    assert Measure(e.key).Plus(copy).Plus(Measure(e.value)) == MeasureEntry(e);
  }

  lemma {:induction false} EntriesCompleteCons(entries: seq<Entry>, input: seq<Byte>, st: State, depth: nat, previous: Option<seq<Byte>>, keyBytes: seq<Byte>)
    requires st.offset <= |input| && depth <= MAX_NESTING_DEPTH + 1 && entries != [] && EntriesMeasurable(entries)
    requires ParseEntry(input, st, depth, previous)
             == Expected(entries[0], st, MeasureEntry(entries[0]), DepthEntry(entries[0]) + depth <= MAX_NESTING_DEPTH)
    requires ParseEntry(input, st, depth, previous).Ok? ==>
               && ParseKey(input, st, depth, previous).Ok?
               && input[st.offset..ParseKey(input, st, depth, previous).value.1.offset] == keyBytes
               && var s := ParseEntry(input, st, depth, previous).value.1;
                  ParseEntries(input, s, depth, |entries| - 1, Some(keyBytes))
                  == Expected(entries[1..], s, MeasureEntries(entries[1..]), DepthEntries(entries[1..]) + depth <= MAX_NESTING_DEPTH + 1)
    ensures ParseEntries(input, st, depth, |entries|, previous)
            == Expected(entries, st, MeasureEntries(entries), DepthEntries(entries) + depth <= MAX_NESTING_DEPTH + 1)
  {
    hide ParseValue;
    hide ParseKey;
    hide MeasureEntry;
    hide DepthEntry;
    Compose(entries[0], entries[1..], entries, st,
            MeasureEntry(entries[0]), DepthEntry(entries[0]) + depth <= MAX_NESTING_DEPTH,
            MeasureEntries(entries[1..]), DepthEntries(entries[1..]) + depth <= MAX_NESTING_DEPTH + 1);
    hide Expected;
    assert entries == [entries[0]] + entries[1..];
  }
}
