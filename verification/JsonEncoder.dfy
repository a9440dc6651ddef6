/** The JSON encoder that can omit fields (internal/json/json_encoder.go), at the level of JSON tokens
    (sections 2 to 5 of RFC 8259). */
module JsonEncoder {
  import opened Wrappers
  import Strings

  // ---------------------------------------------------------------- JSON

  datatype Json =
    | JNull | JBool(flag: bool) | JNumber(number: real) | JString(text: string)
    | JArray(items: seq<Json>)
    | JObject(members: seq<Member>)

  datatype Member = Member(name: string, value: Json)

  /** `TName` is the name of a member together with its colon. */
  datatype Token =
    | TNull | TBool(flag: bool) | TNumber(number: real) | TString(text: string)
    | TArrayStart | TArrayEnd | TObjectStart | TObjectEnd | TMore
    | TName(name: string)

  /** The tokens of a value, with a comma between any two items or members and nowhere else. */
  function Render(j: Json): seq<Token> {
    match j
    case JNull => [TNull]
    case JBool(flag) => [TBool(flag)]
    case JNumber(number) => [TNumber(number)]
    case JString(text) => [TString(text)]
    case JArray(items) => [TArrayStart] + RenderItems(items) + [TArrayEnd]
    case JObject(members) => [TObjectStart] + RenderMembers(members) + [TObjectEnd]
  }

  function RenderItems(items: seq<Json>): seq<Token> {
    if items == [] then []
    else if |items| == 1 then Render(items[0])
    else Render(items[0]) + [TMore] + RenderItems(items[1..])
  }

  function RenderMembers(members: seq<Member>): seq<Token> {
    if members == [] then []
    else if |members| == 1 then [TName(members[0].name)] + Render(members[0].value)
    else [TName(members[0].name)] + Render(members[0].value) + [TMore] + RenderMembers(members[1..])
  }

  datatype Parsed<+T> = Bad | Good(value: T, rest: seq<Token>)

  /** A strict parser: it accepts one value at the start of the tokens, without missing, doubled or trailing commas. */
  function ParseValue(ts: seq<Token>): (r: Parsed<Json>)
    ensures r.Good? ==> |r.rest| < |ts|
    decreases |ts|, 0
  {
    if ts == [] then Bad
    else
      match ts[0]
      case TNull => Good(JNull, ts[1..])
      case TBool(flag) => Good(JBool(flag), ts[1..])
      case TNumber(number) => Good(JNumber(number), ts[1..])
      case TString(text) => Good(JString(text), ts[1..])
      case TArrayStart =>
        if |ts| > 1 && ts[1] == TArrayEnd then Good(JArray([]), ts[2..])
        else
          var r := ParseItems(ts[1..]);
          if r.Bad? then Bad else Good(JArray(r.value), r.rest)
      case TObjectStart =>
        if |ts| > 1 && ts[1] == TObjectEnd then Good(JObject([]), ts[2..])
        else
          var r := ParseMembers(ts[1..]);
          if r.Bad? then Bad else Good(JObject(r.value), r.rest)
      case _ => Bad
  }

  function ParseItems(ts: seq<Token>): (r: Parsed<seq<Json>>)
    ensures r.Good? ==> |r.rest| < |ts|
    decreases |ts|, 1
  {
    var v := ParseValue(ts);
    if v.Bad? || v.rest == [] then Bad
    else if v.rest[0] == TArrayEnd then Good([v.value], v.rest[1..])
    else if v.rest[0] != TMore then Bad
    else
      var r := ParseItems(v.rest[1..]);
      if r.Bad? then Bad else Good([v.value] + r.value, r.rest)
  }

  function ParseMembers(ts: seq<Token>): (r: Parsed<seq<Member>>)
    ensures r.Good? ==> |r.rest| < |ts|
    decreases |ts|, 1
  {
    if ts == [] || !ts[0].TName? then Bad
    else
      var v := ParseValue(ts[1..]);
      if v.Bad? || v.rest == [] then Bad
      else
        var member := Member(ts[0].name, v.value);
        if v.rest[0] == TObjectEnd then Good([member], v.rest[1..])
        else if v.rest[0] != TMore then Bad
        else
          var r := ParseMembers(v.rest[1..]);
          if r.Bad? then Bad else Good([member] + r.value, r.rest)
  }

  lemma RenderStarts(j: Json)
    ensures Render(j) != [] && Render(j)[0] != TArrayEnd && Render(j)[0] != TObjectEnd && Render(j)[0] != TMore
  {
  }

  lemma ParseItemsLast(ts: seq<Token>, v: Json, rest: seq<Token>)
    requires ParseValue(ts) == Good(v, [TArrayEnd] + rest)
    ensures ParseItems(ts) == Good([v], rest)
  {
    assert ([TArrayEnd] + rest)[1..] == rest;
  }

  lemma ParseItemsMore(ts: seq<Token>, v: Json, tail: seq<Token>, vs: seq<Json>, rest: seq<Token>)
    requires ParseValue(ts) == Good(v, [TMore] + tail) && ParseItems(tail) == Good(vs, rest)
    ensures ParseItems(ts) == Good([v] + vs, rest)
  {
    assert ([TMore] + tail)[1..] == tail;
  }

  lemma ParseMembersLast(name: string, ts: seq<Token>, v: Json, rest: seq<Token>)
    requires ParseValue(ts) == Good(v, [TObjectEnd] + rest)
    ensures ParseMembers([TName(name)] + ts) == Good([Member(name, v)], rest)
  {
    assert ([TName(name)] + ts)[1..] == ts;
    assert ([TObjectEnd] + rest)[1..] == rest;
  }

  lemma ParseMembersMore(name: string, ts: seq<Token>, v: Json, tail: seq<Token>, ms: seq<Member>, rest: seq<Token>)
    requires ParseValue(ts) == Good(v, [TMore] + tail) && ParseMembers(tail) == Good(ms, rest)
    ensures ParseMembers([TName(name)] + ts) == Good([Member(name, v)] + ms, rest)
  {
    assert ([TName(name)] + ts)[1..] == ts;
    assert ([TMore] + tail)[1..] == tail;
  }

  lemma ParseArray(ts: seq<Token>, items: seq<Json>, rest: seq<Token>)
    requires ts != [] && ts[0] != TArrayEnd && ParseItems(ts) == Good(items, rest)
    ensures ParseValue([TArrayStart] + ts) == Good(JArray(items), rest)
  {
    assert ([TArrayStart] + ts)[1..] == ts;
  }

  lemma ParseObject(ts: seq<Token>, members: seq<Member>, rest: seq<Token>)
    requires ts != [] && ts[0] != TObjectEnd && ParseMembers(ts) == Good(members, rest)
    ensures ParseValue([TObjectStart] + ts) == Good(JObject(members), rest)
  {
    assert ([TObjectStart] + ts)[1..] == ts;
  }

  lemma ParseEmpty(rest: seq<Token>)
    ensures ParseValue([TArrayStart, TArrayEnd] + rest) == Good(JArray([]), rest)
    ensures ParseValue([TObjectStart, TObjectEnd] + rest) == Good(JObject([]), rest)
  {
    assert ([TArrayStart, TArrayEnd] + rest)[2..] == rest;
    assert ([TObjectStart, TObjectEnd] + rest)[2..] == rest;
  }

  lemma ParseScalar(t: Token, rest: seq<Token>)
    ensures ([t] + rest)[1..] == rest
  {
  }

  /** The tokens of a non-empty array after its opening bracket, and those of an object. */
  function ItemsText(items: seq<Json>, rest: seq<Token>): seq<Token> { RenderItems(items) + [TArrayEnd] + rest }
  function MembersText(members: seq<Member>, rest: seq<Token>): seq<Token> {
    RenderMembers(members) + [TObjectEnd] + rest
  }

  lemma ItemsTextUnfold(items: seq<Json>, rest: seq<Token>)
    requires items != []
    ensures ItemsText(items, rest) == Render(items[0]) +
      if |items| == 1 then [TArrayEnd] + rest else [TMore] + ItemsText(items[1..], rest)
    ensures Render(JArray(items)) + rest == [TArrayStart] + ItemsText(items, rest)
    ensures ItemsText(items, rest) != [] && ItemsText(items, rest)[0] != TArrayEnd
  {
    RenderStarts(items[0]);
  }

  lemma MembersTextUnfold(members: seq<Member>, rest: seq<Token>)
    requires members != []
    ensures MembersText(members, rest) == [TName(members[0].name)] + (Render(members[0].value) +
      if |members| == 1 then [TObjectEnd] + rest else [TMore] + MembersText(members[1..], rest))
    ensures Render(JObject(members)) + rest == [TObjectStart] + MembersText(members, rest)
  {
  }

  lemma RenderEmpty(rest: seq<Token>)
    ensures Render(JArray([])) + rest == [TArrayStart, TArrayEnd] + rest
    ensures Render(JObject([])) + rest == [TObjectStart, TObjectEnd] + rest
  {
  }

  /** Parsing the tokens of a value gives the value back and leaves what follows. */
  lemma {:induction false} ParseRender(j: Json, rest: seq<Token>)
    ensures ParseValue(Render(j) + rest) == Good(j, rest)
    decreases j
  {
    match j
    case JArray(items) =>
      if items == [] {
        ParseEmpty(rest);
        RenderEmpty(rest);
      } else {
        ParseRenderItems(items, rest);
        ItemsTextUnfold(items, rest);
        ParseArray(ItemsText(items, rest), items, rest);
      }
    case JObject(members) =>
      if members == [] {
        ParseEmpty(rest);
        RenderEmpty(rest);
      } else {
        ParseRenderMembers(members, rest);
        MembersTextUnfold(members, rest);
        ParseObject(MembersText(members, rest), members, rest);
      }
    case _ =>
      ParseScalar(Render(j)[0], rest);
  }

  lemma {:induction false} ParseRenderItems(items: seq<Json>, rest: seq<Token>)
    requires items != []
    ensures ParseItems(ItemsText(items, rest)) == Good(items, rest)
    decreases items
  {
    if |items| == 1 {
      ParseRender(items[0], [TArrayEnd] + rest);
      ParseRenderLastItem(items, rest);
    } else {
      var tail := ItemsText(items[1..], rest);
      ParseRenderItems(items[1..], rest);
      ParseRender(items[0], [TMore] + tail);
      ParseRenderMoreItems(items, rest);
    }
  }

  lemma ParseRenderLastItem(items: seq<Json>, rest: seq<Token>)
    requires |items| == 1
    requires ParseValue(Render(items[0]) + ([TArrayEnd] + rest)) == Good(items[0], [TArrayEnd] + rest)
    ensures ParseItems(ItemsText(items, rest)) == Good(items, rest)
  {
    ItemsTextUnfold(items, rest);
    ParseItemsLast(ItemsText(items, rest), items[0], rest);
    assert items == [items[0]];
  }

  lemma ParseRenderMoreItems(items: seq<Json>, rest: seq<Token>)
    requires |items| > 1 && ParseItems(ItemsText(items[1..], rest)) == Good(items[1..], rest)
    requires ParseValue(Render(items[0]) + ([TMore] + ItemsText(items[1..], rest))) ==
             Good(items[0], [TMore] + ItemsText(items[1..], rest))
    ensures ParseItems(ItemsText(items, rest)) == Good(items, rest)
  {
    ItemsTextUnfold(items, rest);
    ParseItemsMore(ItemsText(items, rest), items[0], ItemsText(items[1..], rest), items[1..], rest);
    assert items == [items[0]] + items[1..];
  }

  lemma {:induction false} ParseRenderMembers(members: seq<Member>, rest: seq<Token>)
    requires members != []
    ensures ParseMembers(MembersText(members, rest)) == Good(members, rest)
    decreases members
  {
    var m := members[0];
    if |members| == 1 {
      ParseRender(m.value, [TObjectEnd] + rest);
      ParseRenderLastMember(members, rest);
    } else {
      var tail := MembersText(members[1..], rest);
      ParseRenderMembers(members[1..], rest);
      ParseRender(m.value, [TMore] + tail);
      ParseRenderMoreMembers(members, rest);
    }
  }

  lemma ParseRenderLastMember(members: seq<Member>, rest: seq<Token>)
    requires |members| == 1
    requires ParseValue(Render(members[0].value) + ([TObjectEnd] + rest)) ==
             Good(members[0].value, [TObjectEnd] + rest)
    ensures ParseMembers(MembersText(members, rest)) == Good(members, rest)
  {
    var m := members[0];
    MembersTextUnfold(members, rest);
    ParseMembersLast(m.name, Render(m.value) + ([TObjectEnd] + rest), m.value, rest);
    assert members == [m];
  }

  lemma ParseRenderMoreMembers(members: seq<Member>, rest: seq<Token>)
    requires |members| > 1 && ParseMembers(MembersText(members[1..], rest)) == Good(members[1..], rest)
    requires ParseValue(Render(members[0].value) + ([TMore] + MembersText(members[1..], rest))) ==
             Good(members[0].value, [TMore] + MembersText(members[1..], rest))
    ensures ParseMembers(MembersText(members, rest)) == Good(members, rest)
  {
    var m, tail := members[0], MembersText(members[1..], rest);
    MembersTextUnfold(members, rest);
    ParseMembersMore(m.name, Render(m.value) + ([TMore] + tail), m.value, tail, members[1..], rest);
    assert members == [m] + members[1..];
  }

  lemma {:induction false} RenderItemsSnoc(items: seq<Json>, last: Json)
    ensures RenderItems(items + [last]) == RenderItems(items) + (if items == [] then [] else [TMore]) + Render(last)
  {
    if items == [] {
      assert [] + [last] == [last];
    } else {
      RenderItemsSnoc(items[1..], last);
      assert (items + [last])[1..] == items[1..] + [last];
    }
  }

  lemma {:induction false} RenderMembersSnoc(members: seq<Member>, last: Member)
    ensures RenderMembers(members + [last]) ==
      RenderMembers(members) + (if members == [] then [] else [TMore]) + [TName(last.name)] + Render(last.value)
  {
    if members == [] {
      assert [] + [last] == [last];
    } else {
      RenderMembersSnoc(members[1..], last);
      assert (members + [last])[1..] == members[1..] + [last];
    }
  }

  // ---------------------------------------------------------------- messages

  datatype Field = Field(name: string, fullName: string, textName: string)

  /** A message: its populated fields in the order in which they are visited, which can be any, or a message of one of
      the well-known types with the JSON that the standard encoder gives it, if it gives any. */
  datatype Message = Message(fields: seq<Entry>) | WellKnown(json: Option<Json>)

  datatype Entry = Entry(field: Field, value: Value)

  datatype Value = Single(item: Item) | List(items: seq<Item>) | Map(entries: seq<KeyValue>)

  datatype KeyValue = KeyValue(key: string, value: Item)

  /** A single value by kind.  A float is `None` when it is infinite or not a number; an enumeration value carries the
      name of its number, if the number has one. */
  datatype Item =
    | Invalid
    | Bool(flag: bool)
    | Text(text: string)
    | Int32(number: int)
    | Int64(number: int)
    | Float(finite: Option<real>)
    | Bytes(base64: string)
    | Enum(number: int, name: Option<string>)
    | Sub(message: Message)
    | UnknownKind

  datatype Config = Config(ignoredNames: set<string>, ignoredFullNames: set<string>)

  predicate Ignored(c: Config, f: Field) { f.name in c.ignoredNames || f.fullName in c.ignoredFullNames }

  // ---------------------------------------------------------------- what the JSON should be

  /** How an encoding ends: an unknown number of an enumeration makes the encoder panic. */
  datatype Verdict = Done | Failed | Panicked

  /** The JSON of a single value: integers of 64 bits are strings and the zero of an enumeration is null. */
  function ItemJson(c: Config, item: Item): Json
    decreases item
  {
    match item
    case Invalid => JNull
    case Bool(flag) => JBool(flag)
    case Text(text) => JString(text)
    case Int32(number) => JNumber(number as real)
    case Int64(number) => JString(Strings.Decimal(number))
    case Float(number) => if number.Some? then JNumber(number.value) else JNull
    case Bytes(base64) => JString(base64)
    case Enum(number, name) => if number == 0 || name.None? then JNull else JString(name.value)
    case Sub(message) => MessageJson(c, message)
    case UnknownKind => JNull
  }

  function ItemsJson(c: Config, items: seq<Item>): seq<Json>
    decreases items
  {
    if items == [] then [] else ItemsJson(c, items[..|items| - 1]) + [ItemJson(c, items[|items| - 1])]
  }

  function EntriesJson(c: Config, entries: seq<KeyValue>): seq<Member>
    decreases entries
  {
    if entries == [] then []
    else
      var last := entries[|entries| - 1];
      EntriesJson(c, entries[..|entries| - 1]) + [Member(last.key, ItemJson(c, last.value))]
  }

  function ValueJson(c: Config, value: Value): Json
    decreases value
  {
    match value
    case Single(item) => ItemJson(c, item)
    case List(items) => JArray(ItemsJson(c, items))
    case Map(entries) => JObject(EntriesJson(c, entries))
  }

  /** The members of a message: its fields in order, without the ignored ones. */
  function FieldsJson(c: Config, fields: seq<Entry>): seq<Member>
    decreases fields
  {
    if fields == [] then []
    else
      var last := fields[|fields| - 1];
      assert last in fields && last.value < last;
      FieldsJson(c, fields[..|fields| - 1]) +
      if Ignored(c, last.field) then [] else [Member(last.field.textName, ValueJson(c, last.value))]
  }

  function MessageJson(c: Config, m: Message): Json
    decreases m
  {
    match m
    case Message(fields) => JObject(FieldsJson(c, fields))
    case WellKnown(json) => if json.Some? then json.value else JNull
  }

  // ---------------------------------------------------------------- ignoring is removing

  /** The message without the ignored fields, at every depth; well-known messages stay as they are. */
  function StripMessage(c: Config, m: Message): Message
    decreases m
  {
    if m.Message? then Message(StripFields(c, m.fields)) else m
  }

  function StripFields(c: Config, fields: seq<Entry>): seq<Entry>
    decreases fields
  {
    if fields == [] then []
    else
      var last := fields[|fields| - 1];
      assert last in fields && last.value < last;
      StripFields(c, fields[..|fields| - 1]) +
      if Ignored(c, last.field) then [] else [Entry(last.field, StripValue(c, last.value))]
  }

  function StripValue(c: Config, value: Value): Value
    decreases value
  {
    match value
    case Single(item) => Single(StripItem(c, item))
    case List(items) => List(StripItems(c, items))
    case Map(entries) => Map(StripEntries(c, entries))
  }

  function StripItem(c: Config, item: Item): Item
    decreases item
  {
    if item.Sub? then Sub(StripMessage(c, item.message)) else item
  }

  function StripItems(c: Config, items: seq<Item>): seq<Item>
    decreases items
  {
    if items == [] then [] else StripItems(c, items[..|items| - 1]) + [StripItem(c, items[|items| - 1])]
  }

  function StripEntries(c: Config, entries: seq<KeyValue>): seq<KeyValue>
    decreases entries
  {
    if entries == [] then []
    else
      var last := entries[|entries| - 1];
      StripEntries(c, entries[..|entries| - 1]) + [KeyValue(last.key, StripItem(c, last.value))]
  }

  const NOTHING_IGNORED := Config({}, {})

  /** Encoding with ignored fields is encoding, without any, the message from which they were removed: it succeeds,
      fails or panics alike, and gives the same value. */
  lemma {:induction false} IgnoringIsRemoving(c: Config, m: Message)
    ensures MessageJson(c, m) == MessageJson(NOTHING_IGNORED, StripMessage(c, m))
    ensures MessageVerdict(c, m) == MessageVerdict(NOTHING_IGNORED, StripMessage(c, m))
    decreases m
  {
    if m.Message? { IgnoringIsRemovingFields(c, m.fields); }
  }

  lemma {:induction false} IgnoringIsRemovingFields(c: Config, fields: seq<Entry>)
    ensures FieldsJson(c, fields) == FieldsJson(NOTHING_IGNORED, StripFields(c, fields))
    ensures FieldsVerdict(c, fields) == FieldsVerdict(NOTHING_IGNORED, StripFields(c, fields))
    decreases fields
  {
    if fields != [] {
      var init, last := fields[..|fields| - 1], fields[|fields| - 1];
      assert last in fields && last.value < last;
      IgnoringIsRemovingFields(c, init);
      if Ignored(c, last.field) {
        assert StripFields(c, fields) == StripFields(c, init);
      } else {
        match last.value {
          case Single(item) => IgnoringIsRemovingItem(c, item);
          case List(items) => IgnoringIsRemovingItems(c, items);
          case Map(entries) => IgnoringIsRemovingEntries(c, entries);
        }
        var stripped := Entry(last.field, StripValue(c, last.value));
        FieldsJsonSnoc(NOTHING_IGNORED, StripFields(c, init), stripped);
      }
    }
  }

  lemma FieldsJsonSnoc(c: Config, fields: seq<Entry>, last: Entry)
    requires !Ignored(c, last.field)
    ensures FieldsJson(c, fields + [last]) ==
      FieldsJson(c, fields) + [Member(last.field.textName, ValueJson(c, last.value))]
    ensures FieldsVerdict(c, fields + [last]) == Then(FieldsVerdict(c, fields), ValueVerdict(c, last.value))
  {
    assert (fields + [last])[..|fields|] == fields;
  }

  lemma {:induction false} IgnoringIsRemovingItem(c: Config, item: Item)
    ensures ItemJson(c, item) == ItemJson(NOTHING_IGNORED, StripItem(c, item))
    ensures ItemVerdict(c, item) == ItemVerdict(NOTHING_IGNORED, StripItem(c, item))
    decreases item
  {
    if item.Sub? { IgnoringIsRemoving(c, item.message); }
  }

  lemma {:induction false} IgnoringIsRemovingItems(c: Config, items: seq<Item>)
    ensures ItemsJson(c, items) == ItemsJson(NOTHING_IGNORED, StripItems(c, items))
    ensures ItemsVerdict(c, items) == ItemsVerdict(NOTHING_IGNORED, StripItems(c, items))
    decreases items
  {
    if items != [] {
      var init, last := items[..|items| - 1], items[|items| - 1];
      IgnoringIsRemovingItems(c, init);
      IgnoringIsRemovingItem(c, last);
      var stripped := StripItems(c, init);
      assert (stripped + [StripItem(c, last)])[..|stripped|] == stripped;
    }
  }

  lemma {:induction false} IgnoringIsRemovingEntries(c: Config, entries: seq<KeyValue>)
    ensures EntriesJson(c, entries) == EntriesJson(NOTHING_IGNORED, StripEntries(c, entries))
    ensures EntriesVerdict(c, entries) == EntriesVerdict(NOTHING_IGNORED, StripEntries(c, entries))
    decreases entries
  {
    if entries != [] {
      var init, last := entries[..|entries| - 1], entries[|entries| - 1];
      IgnoringIsRemovingEntries(c, init);
      IgnoringIsRemovingItem(c, last.value);
      var stripped := StripEntries(c, init);
      assert (stripped + [KeyValue(last.key, StripItem(c, last.value))])[..|stripped|] == stripped;
    }
  }

  // ---------------------------------------------------------------- what can go wrong

  function Then(first: Verdict, second: Verdict): Verdict { if first.Done? then second else first }

  function ItemVerdict(c: Config, item: Item): Verdict
    decreases item
  {
    match item
    case Float(number) => if number.Some? then Done else Failed
    case Enum(number, name) => if number == 0 || name.Some? then Done else Panicked
    case Sub(message) => MessageVerdict(c, message)
    case UnknownKind => Failed
    case _ => Done
  }

  function ItemsVerdict(c: Config, items: seq<Item>): Verdict
    decreases items
  {
    if items == [] then Done
    else Then(ItemsVerdict(c, items[..|items| - 1]), ItemVerdict(c, items[|items| - 1]))
  }

  function EntriesVerdict(c: Config, entries: seq<KeyValue>): Verdict
    decreases entries
  {
    if entries == [] then Done
    else Then(EntriesVerdict(c, entries[..|entries| - 1]), ItemVerdict(c, entries[|entries| - 1].value))
  }

  function ValueVerdict(c: Config, value: Value): Verdict
    decreases value
  {
    match value
    case Single(item) => ItemVerdict(c, item)
    case List(items) => ItemsVerdict(c, items)
    case Map(entries) => EntriesVerdict(c, entries)
  }

  /** The first field that is not ignored and cannot be encoded decides. */
  function FieldsVerdict(c: Config, fields: seq<Entry>): Verdict
    decreases fields
  {
    if fields == [] then Done
    else
      var last := fields[|fields| - 1];
      assert last in fields && last.value < last;
      Then(FieldsVerdict(c, fields[..|fields| - 1]),
           if Ignored(c, last.field) then Done else ValueVerdict(c, last.value))
  }

  function MessageVerdict(c: Config, m: Message): Verdict
    decreases m
  {
    match m
    case Message(fields) => FieldsVerdict(c, fields)
    case WellKnown(json) => if json.Some? then Done else Failed
  }

  // ---------------------------------------------------------------- the encoder

  /** The output stream.  An error sticks to it: the float cases of the encoder do not look at it, later writes do. */
  class Stream {
    var tokens: seq<Token>
    var error: bool

    constructor ()
      ensures tokens == [] && !error
    {
      tokens, error := [], false;
    }

    method Put(t: Token)
      modifies this`tokens
      ensures tokens == old(tokens) + [t]
    {
      tokens := tokens + [t];
    }

    method PutFloat(number: Option<real>)
      modifies this
      ensures number.Some? ==> tokens == old(tokens) + [TNumber(number.value)] && error == old(error)
      ensures number.None? ==> tokens == old(tokens) && error
    {
      if number.Some? { Put(TNumber(number.value)); } else { error := true; }
    }

    method PutRaw(ts: seq<Token>)
      modifies this`tokens
      ensures tokens == old(tokens) + ts
    {
      tokens := tokens + ts;
    }
  }

  /** A call that ends well has written exactly the tokens of the value. */
  twostate predicate Wrote(stream: Stream, ts: seq<Token>)
    reads stream
  {
    !stream.error && stream.tokens == old(stream.tokens) + ts
  }

  /** What the caller of `marshalSingle` sees: a bad float may still be hidden in the stream. */
  predicate Seen(verdict: Verdict, outcome: Verdict, error: bool) {
    match verdict
    case Done => outcome.Done? && !error
    case Failed => outcome.Failed? || (outcome.Done? && error)
    case Panicked => outcome.Panicked?
  }

  /** Once a prefix cannot be encoded, it decides the whole. */
  lemma {:induction false} FieldsVerdictPrefix(c: Config, fields: seq<Entry>, k: nat)
    requires k <= |fields| && !FieldsVerdict(c, fields[..k]).Done?
    ensures FieldsVerdict(c, fields) == FieldsVerdict(c, fields[..k])
  {
    if k < |fields| {
      assert fields[..|fields| - 1][..k] == fields[..k];
      FieldsVerdictPrefix(c, fields[..|fields| - 1], k);
    } else {
      assert fields[..k] == fields;
    }
  }

  lemma {:induction false} ItemsVerdictPrefix(c: Config, items: seq<Item>, k: nat)
    requires k <= |items| && !ItemsVerdict(c, items[..k]).Done?
    ensures ItemsVerdict(c, items) == ItemsVerdict(c, items[..k])
  {
    if k < |items| {
      assert items[..|items| - 1][..k] == items[..k];
      ItemsVerdictPrefix(c, items[..|items| - 1], k);
    } else {
      assert items[..k] == items;
    }
  }

  lemma {:induction false} EntriesVerdictPrefix(c: Config, entries: seq<KeyValue>, k: nat)
    requires k <= |entries| && !EntriesVerdict(c, entries[..k]).Done?
    ensures EntriesVerdict(c, entries) == EntriesVerdict(c, entries[..k])
  {
    if k < |entries| {
      assert entries[..|entries| - 1][..k] == entries[..k];
      EntriesVerdictPrefix(c, entries[..|entries| - 1], k);
    } else {
      assert entries[..k] == entries;
    }
  }

  lemma ItemsSnoc(c: Config, items: seq<Item>, i: nat)
    requires i < |items|
    ensures ItemsJson(c, items[..i + 1]) == ItemsJson(c, items[..i]) + [ItemJson(c, items[i])]
    ensures ItemsJson(c, items[..i]) == [] <==> i == 0
    ensures ItemsVerdict(c, items[..i + 1]) == Then(ItemsVerdict(c, items[..i]), ItemVerdict(c, items[i]))
  {
    assert items[..i + 1][..i] == items[..i];
  }

  lemma ItemAppended(start: seq<Token>, items: seq<Json>, item: Json, ts: seq<Token>)
    requires ts == start + RenderItems(items) + (if items == [] then [] else [TMore]) + Render(item)
    ensures ts == start + RenderItems(items + [item])
  {
    RenderItemsSnoc(items, item);
  }

  /** One more member: a comma unless it is the first, its name, and its value. */
  lemma MemberAppended(start: seq<Token>, members: seq<Member>, m: Member, ts: seq<Token>)
    requires ts ==
      start + RenderMembers(members) + (if members == [] then [] else [TMore]) + [TName(m.name)] + Render(m.value)
    ensures ts == start + RenderMembers(members + [m])
  {
    RenderMembersSnoc(members, m);
  }

  lemma EntriesSnoc(c: Config, entries: seq<KeyValue>, i: nat)
    requires i < |entries|
    ensures EntriesJson(c, entries[..i + 1]) ==
      EntriesJson(c, entries[..i]) + [Member(entries[i].key, ItemJson(c, entries[i].value))]
    ensures EntriesVerdict(c, entries[..i + 1]) ==
      Then(EntriesVerdict(c, entries[..i]), ItemVerdict(c, entries[i].value))
  {
    assert entries[..i + 1][..i] == entries[..i];
  }

  lemma FieldsSnoc(c: Config, fields: seq<Entry>, i: nat)
    requires i < |fields|
    ensures FieldsJson(c, fields[..i + 1]) == FieldsJson(c, fields[..i]) +
      if Ignored(c, fields[i].field) then []
      else [Member(fields[i].field.textName, ValueJson(c, fields[i].value))]
    ensures FieldsVerdict(c, fields[..i + 1]) == Then(FieldsVerdict(c, fields[..i]),
      if Ignored(c, fields[i].field) then Done else ValueVerdict(c, fields[i].value))
  {
    assert fields[..i + 1][..i] == fields[..i];
  }

  class Encoder {
    const config: Config

    constructor (config: Config)
      ensures this.config == config
    {
      this.config := config;
    }

    /** Writes a message: on success the stream has exactly its tokens more. */
    method MarshalMessage(stream: Stream, m: Message) returns (outcome: Verdict)
      requires !stream.error
      modifies stream
      ensures outcome == MessageVerdict(config, m)
      ensures outcome.Done? ==> Wrote(stream, Render(MessageJson(config, m)))
      decreases m, 1
    {
      if m.WellKnown? {
        if m.json.None? { return Failed; }
        stream.PutRaw(Render(m.json.value));
        return Done;
      }
      outcome := MarshalFields(stream, m);
    }

    method MarshalFields(stream: Stream, m: Message) returns (outcome: Verdict)
      requires m.Message? && !stream.error
      modifies stream
      ensures outcome == FieldsVerdict(config, m.fields)
      ensures outcome.Done? ==> Wrote(stream, Render(JObject(FieldsJson(config, m.fields))))
      decreases m, 0
    {
      ghost var start := stream.tokens + [TObjectStart];
      stream.Put(TObjectStart);
      var first := true;
      for i := 0 to |m.fields|
        invariant FieldsVerdict(config, m.fields[..i]) == if stream.error then Failed else Done
        invariant first <==> FieldsJson(config, m.fields[..i]) == []
        invariant stream.error ==> !first
        invariant !stream.error ==> stream.tokens == start + RenderMembers(FieldsJson(config, m.fields[..i]))
      {
        FieldsSnoc(config, m.fields, i);
        ghost var members := FieldsJson(config, m.fields[..i]);
        if Ignored(config, m.fields[i].field) {
          assert members + [] == members;
          continue;
        }
        ghost var before := stream.error;
        outcome := MarshalEntry(stream, first, m.fields[i], start, members);
        if !outcome.Done? {
          FieldsVerdictPrefix(config, m.fields, if before then i else i + 1);
          return;
        }
        first := false;
      }
      assert m.fields[..|m.fields|] == m.fields;
      stream.Put(TObjectEnd);
      return if stream.error then Failed else Done;
    }

    /** One visit of the field loop: a hidden error of an earlier field comes out at the comma. */
    method MarshalEntry(stream: Stream, first: bool, entry: Entry, ghost start: seq<Token>, ghost members: seq<Member>)
      returns (outcome: Verdict)
      requires stream.error ==> !first
      requires first <==> members == []
      requires !stream.error ==> stream.tokens == start + RenderMembers(members)
      modifies stream
      ensures old(stream.error) ==> outcome.Failed?
      ensures !old(stream.error) ==> Seen(ValueVerdict(config, entry.value), outcome, stream.error)
      ensures outcome.Done? && !stream.error ==>
        stream.tokens ==
        start + RenderMembers(members + [Member(entry.field.textName, ValueJson(config, entry.value))])
      decreases entry, 0
    {
      if !first {
        stream.Put(TMore);
        if stream.error { return Failed; }
      }
      stream.Put(TName(entry.field.textName));
      outcome := MarshalValue(stream, entry.value);
      if outcome.Done? && !stream.error {
        MemberAppended(start, members, Member(entry.field.textName, ValueJson(config, entry.value)), stream.tokens);
      }
    }

    method MarshalValue(stream: Stream, value: Value) returns (outcome: Verdict)
      requires !stream.error
      modifies stream
      ensures Seen(ValueVerdict(config, value), outcome, stream.error)
      ensures ValueVerdict(config, value).Done? ==> Wrote(stream, Render(ValueJson(config, value)))
      decreases value, 0
    {
      match value
      case Single(item) => outcome := MarshalSingle(stream, item);
      case List(items) => outcome := MarshalList(stream, items);
      case Map(entries) => outcome := MarshalMap(stream, entries);
    }

    method MarshalSingle(stream: Stream, item: Item) returns (outcome: Verdict)
      requires !stream.error
      modifies stream
      ensures Seen(ItemVerdict(config, item), outcome, stream.error)
      ensures ItemVerdict(config, item).Done? ==> Wrote(stream, Render(ItemJson(config, item)))
      decreases item, 0
    {
      outcome := Done;
      match item
      case Invalid => stream.Put(TNull);
      case Bool(flag) => stream.Put(TBool(flag));
      case Text(text) => stream.Put(TString(text));
      case Int32(number) => stream.Put(TNumber(number as real));
      case Int64(number) => stream.Put(TString(Strings.Decimal(number)));
      case Float(number) => stream.PutFloat(number);
      case Bytes(base64) => stream.Put(TString(base64));
      case Enum(number, name) =>
        if number == 0 {
          stream.Put(TNull);
        } else {
          if name.None? { return Panicked; }
          stream.Put(TString(name.value));
        }
      case Sub(message) => outcome := MarshalMessage(stream, message);
      case UnknownKind => outcome := Failed;
    }

    method MarshalList(stream: Stream, items: seq<Item>) returns (outcome: Verdict)
      requires !stream.error
      modifies stream
      ensures outcome == ItemsVerdict(config, items) && (outcome.Done? ==> !stream.error)
      ensures outcome.Done? ==> Wrote(stream, Render(JArray(ItemsJson(config, items))))
      decreases items, 0
    {
      ghost var start := stream.tokens + [TArrayStart];
      stream.Put(TArrayStart);
      for i := 0 to |items|
        invariant ItemsVerdict(config, items[..i]) == if stream.error then Failed else Done
        invariant stream.error ==> i > 0
        invariant !stream.error ==> stream.tokens == start + RenderItems(ItemsJson(config, items[..i]))
      {
        ItemsSnoc(config, items, i);
        ghost var done := ItemsJson(config, items[..i]);
        if i > 0 {
          stream.Put(TMore);
          if stream.error {
            ItemsVerdictPrefix(config, items, i);
            return Failed;
          }
        }
        outcome := MarshalSingle(stream, items[i]);
        if !outcome.Done? {
          ItemsVerdictPrefix(config, items, i + 1);
          return;
        }
        if !stream.error { ItemAppended(start, done, ItemJson(config, items[i]), stream.tokens); }
      }
      assert items[..|items|] == items;
      stream.Put(TArrayEnd);
      return if stream.error then Failed else Done;
    }

    method MarshalMap(stream: Stream, entries: seq<KeyValue>) returns (outcome: Verdict)
      requires !stream.error
      modifies stream
      ensures outcome == EntriesVerdict(config, entries) && (outcome.Done? ==> !stream.error)
      ensures outcome.Done? ==> Wrote(stream, Render(JObject(EntriesJson(config, entries))))
      decreases entries, 0
    {
      ghost var start := stream.tokens + [TObjectStart];
      stream.Put(TObjectStart);
      var first := true;
      for i := 0 to |entries|
        invariant EntriesVerdict(config, entries[..i]) == if stream.error then Failed else Done
        invariant first <==> EntriesJson(config, entries[..i]) == []
        invariant stream.error ==> !first
        invariant !stream.error ==> stream.tokens == start + RenderMembers(EntriesJson(config, entries[..i]))
      {
        EntriesSnoc(config, entries, i);
        ghost var members := EntriesJson(config, entries[..i]);
        if !first {
          stream.Put(TMore);
          if stream.error {
            EntriesVerdictPrefix(config, entries, i);
            return Failed;
          }
        }
        stream.Put(TName(entries[i].key));
        outcome := MarshalSingle(stream, entries[i].value);
        if !outcome.Done? {
          EntriesVerdictPrefix(config, entries, i + 1);
          return;
        }
        if !stream.error {
          MemberAppended(start, members, Member(entries[i].key, ItemJson(config, entries[i].value)), stream.tokens);
        }
        first := false;
      }
      assert entries[..|entries|] == entries;
      stream.Put(TObjectEnd);
      return if stream.error then Failed else Done;
    }

    /** Encodes an object, `None` being no object at all: on success the tokens parse back to exactly its JSON value,
        with nothing left over. */
    method Marshal(root: Option<Message>) returns (outcome: Verdict, tokens: seq<Token>)
      ensures outcome == if root.Some? then MessageVerdict(config, root.value) else Done
      ensures outcome.Done? ==>
        ParseValue(tokens) == Good(if root.Some? then MessageJson(config, root.value) else JObject([]), [])
    {
      if root.None? {
        ParseEmpty([]);
        assert [TObjectStart, TObjectEnd] + [] == [TObjectStart, TObjectEnd];
        return Done, [TObjectStart, TObjectEnd];
      }
      var stream := new Stream();
      outcome := MarshalMessage(stream, root.value);
      tokens := stream.tokens;
      if outcome.Done? {
        var j := MessageJson(config, root.value);
        ParseRender(j, []);
        assert tokens == Render(j) + [];
      }
    }
  }
}
