/** What the JSON of a message says: a decoder that knows the types of the fields gets the message back, so the encoder
    (internal/json/json_encoder.go) loses nothing but the fields that it is told to ignore. */
module JsonDecoder {
  import opened Wrappers
  import opened JsonEncoder
  import Strings

  // ---------------------------------------------------------------- types

  /** What a field holds.  An enumeration knows the names of its numbers and the numbers of its names. */
  datatype Kind =
    | BoolKind
    | TextKind
    | Int32Kind
    | Int64Kind
    | FloatKind
    | BytesKind
    | EnumKind(names: map<int, string>, numbers: map<string, int>)
    | MessageKind(ty: string)

  datatype Cardinality = One(kind: Kind) | Many(kind: Kind) | Keyed(kind: Kind)

  datatype FieldType = FieldType(field: Field, cardinality: Cardinality)

  /** A message type: a well-known one, or its fields by the name that JSON uses for them. */
  datatype Descriptor = Special | Fields(byTextName: map<string, FieldType>)

  type Types = map<string, Descriptor>

  predicate ValidKind(kind: Kind) {
    kind.EnumKind? ==> forall n <- kind.names :: kind.names[n] in kind.numbers && kind.numbers[kind.names[n]] == n
  }

  predicate ValidFieldTypes(fields: map<string, FieldType>) {
    forall t <- fields :: ValidKind(fields[t].cardinality.kind)
  }

  predicate ValidTypes(types: Types) {
    forall ty <- types :: types[ty].Fields? ==> ValidFieldTypes(types[ty].byTextName)
  }

  // ---------------------------------------------------------------- messages of a type

  predicate ConformsItem(types: Types, kind: Kind, item: Item)
    decreases item
  {
    match item
    case Invalid => !kind.EnumKind? && (kind.MessageKind? ==> kind.ty in types && types[kind.ty].Fields?)
    case Bool(_) => kind.BoolKind?
    case Text(_) => kind.TextKind?
    case Int32(_) => kind.Int32Kind?
    case Int64(_) => kind.Int64Kind?
    case Float(_) => kind.FloatKind?
    case Bytes(_) => kind.BytesKind?
    case Enum(n, name) => kind.EnumKind? && name == (if n in kind.names then Some(kind.names[n]) else None)
    case Sub(m) => kind.MessageKind? && Conforms(types, kind.ty, m)
    case UnknownKind => true
  }

  predicate ConformsValue(types: Types, cardinality: Cardinality, value: Value)
    decreases value
  {
    match value
    case Single(item) => cardinality.One? && ConformsItem(types, cardinality.kind, item)
    case List(items) => cardinality.Many? && forall x <- items :: ConformsItem(types, cardinality.kind, x)
    case Map(entries) => cardinality.Keyed? && forall x <- entries :: ConformsItem(types, cardinality.kind, x.value)
  }

  predicate ConformsEntry(types: Types, fields: map<string, FieldType>, entry: Entry)
    decreases entry
  {
    && entry.field.textName in fields && fields[entry.field.textName].field == entry.field
    && ConformsValue(types, fields[entry.field.textName].cardinality, entry.value)
  }

  predicate Conforms(types: Types, ty: string, m: Message)
    decreases m
  {
    && ty in types
    && match m
       case WellKnown(_) => types[ty].Special?
       case Message(fields) =>
         types[ty].Fields? && forall e <- fields :: ConformsEntry(types, types[ty].byTextName, e)
  }

  // ---------------------------------------------------------------- decoding

  /** A single value by the kind of its field. */
  function DecodeItem(types: Types, kind: Kind, j: Json): Option<Item>
    decreases j, 1
  {
    match kind
    case BoolKind => if j.JBool? then Some(Bool(j.flag)) else if j.JNull? then Some(Invalid) else None
    case TextKind => if j.JString? then Some(Text(j.text)) else if j.JNull? then Some(Invalid) else None
    case Int32Kind =>
      if j.JNumber? && j.number == j.number.Floor as real then Some(Int32(j.number.Floor))
      else if j.JNull? then Some(Invalid) else None
    case Int64Kind =>
      if j.JString? && Strings.ParseDecimal(j.text).Some? then Some(Int64(Strings.ParseDecimal(j.text).value))
      else if j.JNull? then Some(Invalid) else None
    case FloatKind => if j.JNumber? then Some(Float(Some(j.number))) else if j.JNull? then Some(Invalid) else None
    case BytesKind => if j.JString? then Some(Bytes(j.text)) else if j.JNull? then Some(Invalid) else None
    case EnumKind(names, numbers) =>
      if j.JNull? then Some(Enum(0, if 0 in names then Some(names[0]) else None))
      else if j.JString? && j.text in numbers then Some(Enum(numbers[j.text], Some(j.text)))
      else None
    case MessageKind(ty) =>
      if j.JNull? && ty in types && types[ty].Fields? then Some(Invalid)
      else
        var m := Decode(types, ty, j);
        if m.Some? then Some(Sub(m.value)) else None
  }

  function DecodeItems(types: Types, kind: Kind, js: seq<Json>): Option<seq<Item>>
    decreases js
  {
    if js == [] then Some([])
    else
      var init, last := DecodeItems(types, kind, js[..|js| - 1]), DecodeItem(types, kind, js[|js| - 1]);
      if init.Some? && last.Some? then Some(init.value + [last.value]) else None
  }

  function DecodeEntries(types: Types, kind: Kind, members: seq<Member>): Option<seq<KeyValue>>
    decreases members
  {
    if members == [] then Some([])
    else
      var m := members[|members| - 1];
      var init, last := DecodeEntries(types, kind, members[..|members| - 1]), DecodeItem(types, kind, m.value);
      if init.Some? && last.Some? then Some(init.value + [KeyValue(m.name, last.value)]) else None
  }

  function DecodeValue(types: Types, cardinality: Cardinality, j: Json): Option<Value>
    decreases j, 2
  {
    match cardinality
    case One(kind) =>
      var item := DecodeItem(types, kind, j);
      if item.Some? then Some(Single(item.value)) else None
    case Many(kind) =>
      if !j.JArray? then None
      else
        var items := DecodeItems(types, kind, j.items);
        if items.Some? then Some(List(items.value)) else None
    case Keyed(kind) =>
      if !j.JObject? then None
      else
        var entries := DecodeEntries(types, kind, j.members);
        if entries.Some? then Some(Map(entries.value)) else None
  }

  /** The members of an object, each by the type of the field of that name. */
  function DecodeFields(types: Types, fields: map<string, FieldType>, members: seq<Member>): Option<seq<Entry>>
    decreases members
  {
    if members == [] then Some([])
    else
      var m := members[|members| - 1];
      if m.name !in fields then None
      else
        var init := DecodeFields(types, fields, members[..|members| - 1]);
        var last := DecodeValue(types, fields[m.name].cardinality, m.value);
        if init.Some? && last.Some? then Some(init.value + [Entry(fields[m.name].field, last.value)]) else None
  }

  function Decode(types: Types, ty: string, j: Json): Option<Message>
    decreases j, 0
  {
    if ty !in types then None
    else if types[ty].Special? then Some(WellKnown(Some(j)))
    else if !j.JObject? then None
    else
      var fields := DecodeFields(types, types[ty].byTextName, j.members);
      if fields.Some? then Some(Message(fields.value)) else None
  }

  // ---------------------------------------------------------------- decoding undoes encoding

  lemma {:induction false} DecodeItemUndoes(types: Types, kind: Kind, item: Item)
    requires ValidTypes(types) && ValidKind(kind) && ConformsItem(types, kind, item)
    requires ItemVerdict(NOTHING_IGNORED, item).Done?
    ensures DecodeItem(types, kind, ItemJson(NOTHING_IGNORED, item)) == Some(item)
    decreases item, 0
  {
    match item
    case Int32(n) => assert (n as real).Floor == n;
    case Int64(n) => Strings.ParseDecimalOfDecimal(n);
    case Sub(m) => DecodeUndoes(types, kind.ty, m);
    case _ =>
  }

  lemma DecodeItemsNext(types: Types, kind: Kind, js: seq<Json>, j: Json, items: seq<Item>, item: Item)
    requires DecodeItems(types, kind, js) == Some(items) && DecodeItem(types, kind, j) == Some(item)
    ensures DecodeItems(types, kind, js + [j]) == Some(items + [item])
  {
    assert (js + [j])[..|js|] == js;
  }

  lemma DecodeEntriesNext(types: Types, kind: Kind, ms: seq<Member>, m: Member, entries: seq<KeyValue>, item: Item)
    requires DecodeEntries(types, kind, ms) == Some(entries) && DecodeItem(types, kind, m.value) == Some(item)
    ensures DecodeEntries(types, kind, ms + [m]) == Some(entries + [KeyValue(m.name, item)])
  {
    assert (ms + [m])[..|ms|] == ms;
  }

  lemma DecodeFieldsNext(types: Types, fields: map<string, FieldType>, ms: seq<Member>, m: Member,
                         entries: seq<Entry>, value: Value)
    requires DecodeFields(types, fields, ms) == Some(entries) && m.name in fields
    requires DecodeValue(types, fields[m.name].cardinality, m.value) == Some(value)
    ensures DecodeFields(types, fields, ms + [m]) == Some(entries + [Entry(fields[m.name].field, value)])
  {
    assert (ms + [m])[..|ms|] == ms;
  }

  lemma LastItem(init: seq<Item>, last: Item)
    ensures ItemsJson(NOTHING_IGNORED, init + [last]) ==
      ItemsJson(NOTHING_IGNORED, init) + [ItemJson(NOTHING_IGNORED, last)]
    ensures ItemsVerdict(NOTHING_IGNORED, init + [last]).Done? <==>
      ItemsVerdict(NOTHING_IGNORED, init).Done? && ItemVerdict(NOTHING_IGNORED, last).Done?
  {
    assert (init + [last])[..|init|] == init;
  }

  lemma LastEntry(init: seq<KeyValue>, last: KeyValue)
    ensures EntriesJson(NOTHING_IGNORED, init + [last]) ==
      EntriesJson(NOTHING_IGNORED, init) + [Member(last.key, ItemJson(NOTHING_IGNORED, last.value))]
    ensures EntriesVerdict(NOTHING_IGNORED, init + [last]).Done? <==>
      EntriesVerdict(NOTHING_IGNORED, init).Done? && ItemVerdict(NOTHING_IGNORED, last.value).Done?
  {
    assert (init + [last])[..|init|] == init;
  }

  lemma {:induction false} DecodeItemsUndoes(types: Types, kind: Kind, items: seq<Item>)
    requires ValidTypes(types) && ValidKind(kind) && forall x <- items :: ConformsItem(types, kind, x)
    requires ItemsVerdict(NOTHING_IGNORED, items).Done?
    ensures DecodeItems(types, kind, ItemsJson(NOTHING_IGNORED, items)) == Some(items)
    decreases items, 0
  {
    if items != [] {
      var init, last := items[..|items| - 1], items[|items| - 1];
      assert items == init + [last];
      LastItem(init, last);
      DecodeItemsUndoes(types, kind, init);
      DecodeItemUndoes(types, kind, last);
      DecodeItemsNext(types, kind, ItemsJson(NOTHING_IGNORED, init), ItemJson(NOTHING_IGNORED, last), init, last);
    }
  }

  lemma {:induction false} DecodeEntriesUndoes(types: Types, kind: Kind, entries: seq<KeyValue>)
    requires ValidTypes(types) && ValidKind(kind) && forall x <- entries :: ConformsItem(types, kind, x.value)
    requires EntriesVerdict(NOTHING_IGNORED, entries).Done?
    ensures DecodeEntries(types, kind, EntriesJson(NOTHING_IGNORED, entries)) == Some(entries)
    decreases entries, 0
  {
    if entries != [] {
      var init, last := entries[..|entries| - 1], entries[|entries| - 1];
      assert entries == init + [last];
      LastEntry(init, last);
      DecodeEntriesUndoes(types, kind, init);
      DecodeItemUndoes(types, kind, last.value);
      var j := ItemJson(NOTHING_IGNORED, last.value);
      DecodeEntriesNext(types, kind, EntriesJson(NOTHING_IGNORED, init), Member(last.key, j), init, last.value);
    }
  }

  lemma {:induction false} DecodeValueUndoes(types: Types, cardinality: Cardinality, value: Value)
    requires ValidTypes(types) && ValidKind(cardinality.kind) && ConformsValue(types, cardinality, value)
    requires ValueVerdict(NOTHING_IGNORED, value).Done?
    ensures DecodeValue(types, cardinality, ValueJson(NOTHING_IGNORED, value)) == Some(value)
    decreases value, 0
  {
    match value
    case Single(item) => DecodeItemUndoes(types, cardinality.kind, item);
    case List(items) => DecodeItemsUndoes(types, cardinality.kind, items);
    case Map(entries) => DecodeEntriesUndoes(types, cardinality.kind, entries);
  }

  lemma LastField(init: seq<Entry>, last: Entry)
    ensures FieldsJson(NOTHING_IGNORED, init + [last]) ==
      FieldsJson(NOTHING_IGNORED, init) + [Member(last.field.textName, ValueJson(NOTHING_IGNORED, last.value))]
    ensures FieldsVerdict(NOTHING_IGNORED, init + [last]).Done? <==>
      FieldsVerdict(NOTHING_IGNORED, init).Done? && ValueVerdict(NOTHING_IGNORED, last.value).Done?
  {
    FieldsJsonSnoc(NOTHING_IGNORED, init, last);
  }

  lemma {:induction false} DecodeFieldsUndoes(types: Types, fieldTypes: map<string, FieldType>, fields: seq<Entry>)
    requires ValidTypes(types) && ValidFieldTypes(fieldTypes)
    requires forall e <- fields :: ConformsEntry(types, fieldTypes, e)
    requires FieldsVerdict(NOTHING_IGNORED, fields).Done?
    ensures DecodeFields(types, fieldTypes, FieldsJson(NOTHING_IGNORED, fields)) == Some(fields)
    decreases fields, 0
  {
    if fields != [] {
      var init, last := fields[..|fields| - 1], fields[|fields| - 1];
      assert last in fields && last.value < last;
      assert fields == init + [last];
      LastField(init, last);
      DecodeFieldsUndoes(types, fieldTypes, init);
      DecodeLastField(types, fieldTypes, init, last);
    }
  }

  lemma {:induction false} DecodeLastField(types: Types, fieldTypes: map<string, FieldType>, init: seq<Entry>,
                                           last: Entry)
    requires ValidTypes(types) && ValidFieldTypes(fieldTypes) && ConformsEntry(types, fieldTypes, last)
    requires ValueVerdict(NOTHING_IGNORED, last.value).Done?
    requires DecodeFields(types, fieldTypes, FieldsJson(NOTHING_IGNORED, init)) == Some(init)
    ensures DecodeFields(types, fieldTypes, FieldsJson(NOTHING_IGNORED, init + [last])) == Some(init + [last])
    decreases last, 0
  {
    LastField(init, last);
    DecodeValueUndoes(types, fieldTypes[last.field.textName].cardinality, last.value);
    var member := Member(last.field.textName, ValueJson(NOTHING_IGNORED, last.value));
    DecodeFieldsNext(types, fieldTypes, FieldsJson(NOTHING_IGNORED, init), member, init, last.value);
  }

  lemma {:induction false} DecodeUndoes(types: Types, ty: string, m: Message)
    requires ValidTypes(types) && Conforms(types, ty, m) && MessageVerdict(NOTHING_IGNORED, m).Done?
    ensures Decode(types, ty, MessageJson(NOTHING_IGNORED, m)) == Some(m)
    decreases m, 0
  {
    if m.Message? { DecodeFieldsUndoes(types, types[ty].byTextName, m.fields); }
  }

  // ---------------------------------------------------------------- what is lost

  lemma {:induction false} StrippedItemConforms(types: Types, c: Config, kind: Kind, item: Item)
    requires ConformsItem(types, kind, item)
    ensures ConformsItem(types, kind, StripItem(c, item))
    decreases item, 0
  {
    if item.Sub? { StrippedConforms(types, c, kind.ty, item.message); }
  }

  lemma {:induction false} StrippedItemsConform(types: Types, c: Config, kind: Kind, items: seq<Item>)
    requires forall x <- items :: ConformsItem(types, kind, x)
    ensures forall x <- StripItems(c, items) :: ConformsItem(types, kind, x)
    decreases items, 0
  {
    if items != [] {
      StrippedItemsConform(types, c, kind, items[..|items| - 1]);
      StrippedItemConforms(types, c, kind, items[|items| - 1]);
    }
  }

  lemma {:induction false} StrippedEntriesConform(types: Types, c: Config, kind: Kind, entries: seq<KeyValue>)
    requires forall x <- entries :: ConformsItem(types, kind, x.value)
    ensures forall x <- StripEntries(c, entries) :: ConformsItem(types, kind, x.value)
    decreases entries, 0
  {
    if entries != [] {
      StrippedEntriesConform(types, c, kind, entries[..|entries| - 1]);
      StrippedItemConforms(types, c, kind, entries[|entries| - 1].value);
    }
  }

  lemma {:induction false} StrippedValueConforms(types: Types, c: Config, cardinality: Cardinality, value: Value)
    requires ConformsValue(types, cardinality, value)
    ensures ConformsValue(types, cardinality, StripValue(c, value))
    decreases value, 0
  {
    match value
    case Single(item) => StrippedItemConforms(types, c, cardinality.kind, item);
    case List(items) => StrippedItemsConform(types, c, cardinality.kind, items);
    case Map(entries) => StrippedEntriesConform(types, c, cardinality.kind, entries);
  }

  lemma {:induction false} StrippedFieldsConform(types: Types, c: Config, fieldTypes: map<string, FieldType>,
                                                 fields: seq<Entry>)
    requires forall e <- fields :: ConformsEntry(types, fieldTypes, e)
    ensures forall e <- StripFields(c, fields) :: ConformsEntry(types, fieldTypes, e)
    decreases fields, 0
  {
    if fields != [] {
      var last := fields[|fields| - 1];
      assert last in fields && last.value < last && ConformsEntry(types, fieldTypes, last);
      StrippedFieldsConform(types, c, fieldTypes, fields[..|fields| - 1]);
      StrippedValueConforms(types, c, fieldTypes[last.field.textName].cardinality, last.value);
    }
  }

  lemma {:induction false} StrippedConforms(types: Types, c: Config, ty: string, m: Message)
    requires Conforms(types, ty, m)
    ensures Conforms(types, ty, StripMessage(c, m))
    decreases m, 0
  {
    if m.Message? { StrippedFieldsConform(types, c, types[ty].byTextName, m.fields); }
  }

  /** Whenever encoding succeeds, decoding the JSON by the types of the fields gives back the message, without the
      ignored fields. */
  lemma DecodeEncode(types: Types, c: Config, ty: string, m: Message)
    requires ValidTypes(types) && Conforms(types, ty, m) && MessageVerdict(c, m).Done?
    ensures Decode(types, ty, MessageJson(c, m)) == Some(StripMessage(c, m))
  {
    IgnoringIsRemoving(c, m);
    StrippedConforms(types, c, ty, m);
    DecodeUndoes(types, ty, StripMessage(c, m));
  }

  /** The same from the tokens: what the encoder writes parses and decodes to the message. */
  lemma DecodeTokens(types: Types, c: Config, ty: string, m: Message, tokens: seq<Token>)
    requires ValidTypes(types) && Conforms(types, ty, m) && MessageVerdict(c, m).Done?
    requires ParseValue(tokens) == Good(MessageJson(c, m), [])
    ensures Decode(types, ty, ParseValue(tokens).value) == Some(StripMessage(c, m))
  {
    DecodeEncode(types, c, ty, m);
  }

  // ---------------------------------------------------------------- which fields are removed

  /** At the top the fields that stay are exactly those whose name and full name are not ignored. */
  lemma {:induction false} StripKeepsTheOthers(c: Config, fields: seq<Entry>, f: Field)
    ensures (exists e <- StripFields(c, fields) :: e.field == f) <==>
      (exists e <- fields :: e.field == f) && f.name !in c.ignoredNames && f.fullName !in c.ignoredFullNames
    decreases |fields|
  {
    if fields != [] {
      var init, last := fields[..|fields| - 1], fields[|fields| - 1];
      StripKeepsTheOthers(c, init, f);
      assert fields == init + [last];
      var kept := StripFields(c, fields);
      if last.field == f && !Ignored(c, f) { assert kept[|kept| - 1].field == f; }
      if e :| e in StripFields(c, init) && e.field == f { assert e in kept; }
      if e :| e in kept && e.field == f && e !in StripFields(c, init) { assert e == kept[|kept| - 1]; }
    }
  }

  /** No field at any depth outside well-known types is ignored. */
  predicate CleanItem(c: Config, item: Item)
    decreases item
  {
    item.Sub? ==> Clean(c, item.message)
  }

  predicate CleanValue(c: Config, value: Value)
    decreases value
  {
    match value
    case Single(item) => CleanItem(c, item)
    case List(items) => forall x <- items :: CleanItem(c, x)
    case Map(entries) => forall x <- entries :: CleanItem(c, x.value)
  }

  predicate Clean(c: Config, m: Message)
    decreases m
  {
    m.Message? ==> forall e <- m.fields ::
      e.field.name !in c.ignoredNames && e.field.fullName !in c.ignoredFullNames && CleanValue(c, e.value)
  }

  lemma {:induction false} StripItemCleans(c: Config, item: Item)
    ensures CleanItem(c, StripItem(c, item)) && (CleanItem(c, item) ==> StripItem(c, item) == item)
    decreases item, 0
  {
    if item.Sub? { StripCleans(c, item.message); }
  }

  lemma {:induction false} StripItemsCleans(c: Config, items: seq<Item>)
    ensures forall x <- StripItems(c, items) :: CleanItem(c, x)
    ensures (forall x <- items :: CleanItem(c, x)) ==> StripItems(c, items) == items
    decreases items, 0
  {
    if items != [] {
      StripItemsCleans(c, items[..|items| - 1]);
      StripItemCleans(c, items[|items| - 1]);
      assert items == items[..|items| - 1] + [items[|items| - 1]];
    }
  }

  lemma {:induction false} StripEntriesCleans(c: Config, entries: seq<KeyValue>)
    ensures forall x <- StripEntries(c, entries) :: CleanItem(c, x.value)
    ensures (forall x <- entries :: CleanItem(c, x.value)) ==> StripEntries(c, entries) == entries
    decreases entries, 0
  {
    if entries != [] {
      var init, last := entries[..|entries| - 1], entries[|entries| - 1];
      assert entries == init + [last];
      StripEntriesCleans(c, init);
      StripItemCleans(c, last.value);
      if forall x <- entries :: CleanItem(c, x.value) {
        assert StripEntries(c, init) == init && StripItem(c, last.value) == last.value;
      }
    }
  }

  lemma {:induction false} StripValueCleans(c: Config, value: Value)
    ensures CleanValue(c, StripValue(c, value)) && (CleanValue(c, value) ==> StripValue(c, value) == value)
    decreases value, 0
  {
    match value
    case Single(item) => StripItemCleans(c, item);
    case List(items) => StripItemsCleans(c, items);
    case Map(entries) => StripEntriesCleans(c, entries);
  }

  lemma {:induction false} StripFieldsCleans(c: Config, fields: seq<Entry>)
    ensures Clean(c, Message(StripFields(c, fields)))
    ensures Clean(c, Message(fields)) ==> StripFields(c, fields) == fields
    decreases fields, 0
  {
    if fields != [] {
      var init, last := fields[..|fields| - 1], fields[|fields| - 1];
      assert last in fields && last.value < last && fields == init + [last];
      StripFieldsCleans(c, init);
      StripValueCleans(c, last.value);
      if Clean(c, Message(fields)) { assert Clean(c, Message(init)); }
    }
  }

  /** What is left has no ignored field at any depth, and a message that has none stays as it is. */
  lemma {:induction false} StripCleans(c: Config, m: Message)
    ensures Clean(c, StripMessage(c, m)) && (Clean(c, m) ==> StripMessage(c, m) == m)
    decreases m, 0
  {
    if m.Message? { StripFieldsCleans(c, m.fields); }
  }

  // ---------------------------------------------------------------- what can be encoded

  /** Everything in the message has a JSON form: finite floats, enumeration numbers with a name, known kinds. */
  predicate EncodableItem(item: Item)
    decreases item
  {
    match item
    case Float(number) => number.Some?
    case Enum(n, name) => n == 0 || name.Some?
    case Sub(m) => Encodable(m)
    case UnknownKind => false
    case _ => true
  }

  predicate EncodableValue(value: Value)
    decreases value
  {
    match value
    case Single(item) => EncodableItem(item)
    case List(items) => forall x <- items :: EncodableItem(x)
    case Map(entries) => forall x <- entries :: EncodableItem(x.value)
  }

  predicate Encodable(m: Message)
    decreases m
  {
    match m
    case WellKnown(json) => json.Some?
    case Message(fields) => forall e <- fields :: EncodableValue(e.value)
  }

  lemma {:induction false} ItemDoneIff(item: Item)
    ensures ItemVerdict(NOTHING_IGNORED, item).Done? <==> EncodableItem(item)
    decreases item, 0
  {
    if item.Sub? { MessageDoneIff(item.message); }
  }

  lemma {:induction false} ItemsDoneIff(items: seq<Item>)
    ensures ItemsVerdict(NOTHING_IGNORED, items).Done? <==> forall x <- items :: EncodableItem(x)
    decreases items, 0
  {
    if items != [] {
      ItemsDoneIff(items[..|items| - 1]);
      ItemDoneIff(items[|items| - 1]);
      assert items == items[..|items| - 1] + [items[|items| - 1]];
    }
  }

  lemma {:induction false} EntriesDoneIff(entries: seq<KeyValue>)
    ensures EntriesVerdict(NOTHING_IGNORED, entries).Done? <==> forall x <- entries :: EncodableItem(x.value)
    decreases entries, 0
  {
    if entries != [] {
      EntriesDoneIff(entries[..|entries| - 1]);
      ItemDoneIff(entries[|entries| - 1].value);
      assert entries == entries[..|entries| - 1] + [entries[|entries| - 1]];
    }
  }

  lemma {:induction false} FieldsDoneIff(fields: seq<Entry>)
    ensures FieldsVerdict(NOTHING_IGNORED, fields).Done? <==> forall e <- fields :: EncodableValue(e.value)
    decreases fields, 0
  {
    if fields != [] {
      var init, last := fields[..|fields| - 1], fields[|fields| - 1];
      assert last in fields && last.value < last && fields == init + [last];
      FieldsDoneIff(init);
      match last.value {
        case Single(item) => ItemDoneIff(item);
        case List(items) => ItemsDoneIff(items);
        case Map(entries) => EntriesDoneIff(entries);
      }
    }
  }

  lemma {:induction false} MessageDoneIff(m: Message)
    ensures MessageVerdict(NOTHING_IGNORED, m).Done? <==> Encodable(m)
    decreases m, 0
  {
    if m.Message? { FieldsDoneIff(m.fields); }
  }

  /** Encoding succeeds exactly when everything that is not ignored has a JSON form. */
  lemma EncodesIff(c: Config, m: Message)
    ensures MessageVerdict(c, m).Done? <==> Encodable(StripMessage(c, m))
  {
    IgnoringIsRemoving(c, m);
    MessageDoneIff(StripMessage(c, m));
  }

  /** The kinds of failure: an enumeration number without a name makes the encoder panic; a float that is not
      finite and a kind that it does not know are errors. */
  lemma WhatFailsHow(c: Config, n: int)
    ensures n != 0 ==> ItemVerdict(c, Enum(n, None)) == Panicked
    ensures ItemVerdict(c, Float(None)) == Failed && ItemVerdict(c, UnknownKind) == Failed
    ensures MessageVerdict(c, WellKnown(None)) == Failed
  {
  }

  /** The first field that is not ignored and cannot be encoded decides how the encoding ends. */
  lemma {:induction false} FirstBadFieldDecides(c: Config, fields: seq<Entry>, k: nat)
    requires k < |fields| && !Ignored(c, fields[k].field) && !ValueVerdict(c, fields[k].value).Done?
    requires forall i :: 0 <= i < k ==> Ignored(c, fields[i].field) || ValueVerdict(c, fields[i].value).Done?
    ensures FieldsVerdict(c, fields) == ValueVerdict(c, fields[k].value)
    decreases |fields|
  {
    var init := fields[..|fields| - 1];
    if k < |init| { FirstBadFieldDecides(c, init, k); } else { GoodFields(c, init); }
  }

  lemma {:induction false} GoodFields(c: Config, fields: seq<Entry>)
    requires forall i :: 0 <= i < |fields| ==> Ignored(c, fields[i].field) || ValueVerdict(c, fields[i].value).Done?
    ensures FieldsVerdict(c, fields).Done?
    decreases |fields|
  {
    if fields != [] {
      GoodFields(c, fields[..|fields| - 1]);
      assert Ignored(c, fields[|fields| - 1].field) || ValueVerdict(c, fields[|fields| - 1].value).Done?;
    }
  }
}
