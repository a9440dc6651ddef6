/** Protobuf messages as finite trees over a descriptor, and the field paths that read, write and clear them
    (internal/masks/mask_path.go).

    A message stores exactly the fields for which `Has` holds.  Empty lists, empty maps and default values of scalars
    with implicit presence are never stored, and storing one of them removes the field. */
module Messages {
  import opened Wrappers

  /** What a field holds.  `SingularScalar` carries the default value when the field has implicit presence. */
  datatype Shape =
    | SingularScalar(implicitDefault: Option<Atom>)
    | SingularMessage(messageType: string)
    | RepeatedField(elementType: Option<string>)
    | MapField(valueType: Option<string>)

  datatype Field = Field(name: string, shape: Shape)

  /** Message types by name: a table, so that descriptors may be recursive. */
  type Schema = map<string, seq<Field>>

  /** Scalars: the text stands for any comparable protobuf scalar. */
  datatype Atom = Atom(text: string)

  datatype Message = Message(fields: map<string, Value>)

  datatype Value =
    | Scalar(atom: Atom)
    | Sub(msg: Message)
    | List(items: seq<Value>)
    | Dict(entries: map<string, Value>)

  const EMPTY := Message(map[])

  // ---------------------------------------------------------------- descriptors

  predicate DistinctNames(fs: seq<Field>) {
    forall i, j :: 0 <= i < j < |fs| ==> fs[i].name != fs[j].name
  }

  predicate ValidSchema(schema: Schema) {
    forall ty <- schema :: DistinctNames(schema[ty]) && forall f <- schema[ty] :: ShapeInSchema(schema, f.shape)
  }

  predicate ShapeInSchema(schema: Schema, shape: Shape) {
    match shape
    case SingularScalar(_) => true
    case SingularMessage(ty) => ty in schema
    case RepeatedField(element) => element.Some? ==> element.value in schema
    case MapField(value) => value.Some? ==> value.value in schema
  }

  /** A stored value is present: lists and maps are not empty and an implicit scalar is not its default. */
  predicate Present(shape: Shape, v: Value) {
    match shape
    case SingularScalar(d) => v.Scalar? && (d.Some? ==> v.atom != d.value)
    case SingularMessage(_) => v.Sub?
    case RepeatedField(_) => v.List? && v.items != []
    case MapField(_) => v.Dict? && v.entries != map[]
  }

  predicate WellFormed(schema: Schema, ty: string, m: Message)
    decreases m, 0
  {
    && ty in schema
    && (forall name <- m.fields :: exists f <- schema[ty] :: f.name == name)
    && (forall f <- schema[ty] :: f.name in m.fields ==>
          && Present(f.shape, m.fields[f.name])
          && WellFormedValue(schema, f.shape, m.fields[f.name]))
  }

  predicate WellFormedValue(schema: Schema, shape: Shape, v: Value)
    decreases v
  {
    match v
    case Scalar(_) => true
    case Sub(m) => shape.SingularMessage? ==> WellFormed(schema, shape.messageType, m)
    case List(items) =>
      shape.RepeatedField? ==> forall x <- items :: WellFormedItem(schema, shape.elementType, x)
    case Dict(entries) =>
      shape.MapField? ==> forall k <- entries :: WellFormedItem(schema, shape.valueType, entries[k])
  }

  predicate WellFormedItem(schema: Schema, ty: Option<string>, v: Value)
    decreases v, 1
  {
    match ty
    case None => v.Scalar?
    case Some(name) => v.Sub? && WellFormed(schema, name, v.msg)
  }

  // ---------------------------------------------------------------- field paths

  /** A compiled path of field steps: each step carries the descriptor of the field it goes through. */
  type Path = seq<Field>

  ghost predicate Typed(schema: Schema, ty: string, p: Path)
    decreases |p|
  {
    p == [] ||
    (ty in schema && p[0] in schema[ty] &&
     (|p| == 1 || (p[0].shape.SingularMessage? && Typed(schema, p[0].shape.messageType, p[1..]))))
  }

  /** The value a field holds, if it is present. */
  function Slot(m: Message, name: string): Option<Value> {
    if name in m.fields then Some(m.fields[name]) else None
  }

  function SetSlot(m: Message, name: string, slot: Option<Value>): Message {
    if slot.Some? then Message(m.fields[name := slot.value]) else Message(m.fields - {name})
  }

  function ReadValue(v: Value, p: Path): Option<Value>
    decreases |p|
  {
    if p == [] then Some(v)
    else if v.Sub? && p[0].name in v.msg.fields then ReadValue(v.msg.fields[p[0].name], p[1..])
    else None
  }

  /** What `Path.Get` returns. */
  function Read(m: Message, p: Path): Option<Value> {
    ReadValue(Sub(m), p)
  }

  /** The message in a slot, or the fresh empty one that `Path.Set` creates when there is none. */
  function ChildOrNew(slot: Option<Value>): Message {
    if slot.Some? && slot.value.Sub? then slot.value.msg else EMPTY
  }

  datatype Edit = Put(value: Value) | Del

  /** What an edit along a path leaves in the slot of its first field. */
  function EditSlot(slot: Option<Value>, p: Path, e: Edit): Option<Value>
    requires p != []
    decreases |p|, 0
  {
    if |p| == 1 then
      if e.Put? && Present(p[0].shape, e.value) then Some(e.value) else None
    else if e.Put? || (slot.Some? && slot.value.Sub?) then
      Some(Sub(Apply(ChildOrNew(slot), p[1..], e)))
    else slot
  }

  function Apply(m: Message, p: Path, e: Edit): Message
    decreases |p|, 1
  {
    if p == [] then m else SetSlot(m, p[0].name, EditSlot(Slot(m, p[0].name), p, e))
  }

  /** What `Path.Set` leaves behind. */
  function Write(m: Message, p: Path, v: Value): Message { Apply(m, p, Put(v)) }

  /** What `Path.Clear` leaves behind. */
  function Erase(m: Message, p: Path): Message { Apply(m, p, Del) }

  // ---------------------------------------------------------------- diverging paths

  function Names(p: Path): (names: seq<string>)
    ensures |names| == |p|
  {
    seq(|p|, i requires 0 <= i < |p| => p[i].name)
  }

  /** The paths part company at some step: neither is a prefix of the other. */
  predicate Diverge(p: Path, q: Path) {
    p != [] && q != [] && (p[0].name != q[0].name || Diverge(p[1..], q[1..]))
  }

  lemma {:induction false} DivergeMeansIncomparable(p: Path, q: Path)
    ensures Diverge(p, q) <==> !(Names(p) <= Names(q)) && !(Names(q) <= Names(p))
  {
    if p != [] && q != [] {
      DivergeMeansIncomparable(p[1..], q[1..]);
      PrefixTail(Names(p), Names(q), Names(p[1..]), Names(q[1..]));
      PrefixTail(Names(q), Names(p), Names(q[1..]), Names(p[1..]));
    }
  }

  lemma PrefixTail<T>(a: seq<T>, b: seq<T>, aTail: seq<T>, bTail: seq<T>)
    requires a != [] && b != [] && aTail == a[1..] && bTail == b[1..]
    ensures a <= b <==> a[0] == b[0] && aTail <= bTail
  {
    if |a| <= |b| {
      assert b[..|a|] == [b[0]] + bTail[..|aTail|];
      assert a == [a[0]] + aTail;
      assert b[..|a|][1..] == bTail[..|aTail|];
    }
  }

  lemma {:induction false} DivergeSymmetric(p: Path, q: Path)
    ensures Diverge(p, q) == Diverge(q, p)
  {
    if p != [] && q != [] { DivergeSymmetric(p[1..], q[1..]); }
  }

  /** No path of the mask is a prefix of another one, and none is repeated. */
  predicate Antichain(mask: seq<Path>) {
    forall i, j :: 0 <= i < j < |mask| ==> Diverge(mask[i], mask[j])
  }

  // ---------------------------------------------------------------- laws of single reads and edits

  /** What a path reads right after an edit along it. */
  function Stored(p: Path, e: Edit): Option<Value>
    requires p != []
  {
    if e.Put? && Present(p[|p| - 1].shape, e.value) then Some(e.value) else None
  }

  lemma ReadUnfold(m: Message, p: Path)
    requires p != []
    ensures Read(m, p) ==
      (var slot := Slot(m, p[0].name); if slot.None? then None else ReadValue(slot.value, p[1..]))
  {
  }

  lemma {:induction false} ReadAfterEdit(m: Message, p: Path, e: Edit)
    requires p != []
    ensures Read(Apply(m, p, e), p) == Stored(p, e)
    decreases |p|
  {
    ReadUnfold(Apply(m, p, e), p);
    if |p| == 1 {
      assert p[1..] == [];
    } else {
      var slot := Slot(m, p[0].name);
      ReadAfterEdit(ChildOrNew(slot), p[1..], e);
      assert p[1..][|p| - 2] == p[|p| - 1];
    }
  }

  lemma {:induction false} EditFrames(m: Message, p: Path, e: Edit, q: Path)
    requires Diverge(p, q)
    ensures Read(Apply(m, p, e), q) == Read(m, q)
    decreases |p|
  {
    if p[0].name == q[0].name {
      EditFrames(ChildOrNew(Slot(m, p[0].name)), p[1..], e, q[1..]);
      if q[1..] != [] { ReadUnfold(EMPTY, q[1..]); }
    }
    ReadUnfold(m, q);
    ReadUnfold(Apply(m, p, e), q);
  }

  lemma SetSlotsCommute(m: Message, a: string, x: Option<Value>, b: string, y: Option<Value>)
    requires a != b
    ensures SetSlot(SetSlot(m, a, x), b, y) == SetSlot(SetSlot(m, b, y), a, x)
  {
    assert SetSlot(SetSlot(m, a, x), b, y).fields == SetSlot(SetSlot(m, b, y), a, x).fields;
  }

  lemma SetSlotAbsorbs(m: Message, name: string, x: Option<Value>, y: Option<Value>)
    ensures SetSlot(SetSlot(m, name, x), name, y) == SetSlot(m, name, y)
    ensures Slot(SetSlot(m, name, x), name) == x
    ensures SetSlot(m, name, Slot(m, name)) == m
  {
    assert SetSlot(SetSlot(m, name, x), name, y).fields == SetSlot(m, name, y).fields;
    assert SetSlot(m, name, Slot(m, name)).fields == m.fields;
  }

  /** Edits along diverging paths do not see each other, even when they create the messages in between. */
  lemma {:induction false} EditsCommute(m: Message, p: Path, d: Edit, q: Path, e: Edit)
    requires Diverge(p, q)
    ensures Apply(Apply(m, p, d), q, e) == Apply(Apply(m, q, e), p, d)
    decreases |p|, 1
  {
    var a, b := p[0].name, q[0].name;
    var x, y := EditSlot(Slot(m, a), p, d), EditSlot(Slot(m, b), q, e);
    if a != b {
      SetSlotsCommute(m, a, x, b, y);
    } else {
      SlotEditsCommute(Slot(m, a), p, d, q, e);
      SetSlotAbsorbs(m, a, x, EditSlot(x, q, e));
      SetSlotAbsorbs(m, a, y, EditSlot(y, p, d));
    }
  }

  lemma {:induction false} SlotEditsCommute(slot: Option<Value>, p: Path, d: Edit, q: Path, e: Edit)
    requires Diverge(p, q) && p[0].name == q[0].name
    ensures EditSlot(EditSlot(slot, p, d), q, e) == EditSlot(EditSlot(slot, q, e), p, d)
    decreases |p|, 0
  {
    EditsCommute(ChildOrNew(slot), p[1..], d, q[1..], e);
    if d.Del? { EraseFromEmpty(p[1..]); }
    if e.Del? { EraseFromEmpty(q[1..]); }
  }

  lemma {:induction false} EraseFromEmpty(p: Path)
    ensures Erase(EMPTY, p) == EMPTY
  {
    if p != [] {
      assert EditSlot(None, p, Del) == None;
      SetSlotAbsorbs(EMPTY, p[0].name, None, None);
    }
  }
}
