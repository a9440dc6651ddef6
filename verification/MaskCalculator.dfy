/** Field-mask calculation (internal/masks/masks_calculator.go), the update loop that applies a mask
    (internal/servers/generic_server.go), and the laws that tie them together. */
module MaskCalculator {
  import opened Wrappers
  import opened Messages

  // ---------------------------------------------------------------- the mask as a list of paths

  function Prefixed(f: Field, paths: seq<Path>): (r: seq<Path>)
    ensures |r| == |paths|
    ensures forall i :: 0 <= i < |r| ==> r[i] == [f] + paths[i]
  {
    seq(|paths|, i requires 0 <= i < |paths| => [f] + paths[i])
  }

  /** The paths below one field: it recurses only when both sides hold a message, otherwise the whole field counts. */
  function FieldDiff(schema: Schema, f: Field, before: Message, after: Message): seq<Path>
    decreases before, 0, 0
  {
    var b, a := Slot(before, f.name), Slot(after, f.name);
    if f.shape.SingularMessage? && b.Some? && b.value.Sub? && a.Some? && a.value.Sub? then
      Prefixed(f, Diff(schema, f.shape.messageType, b.value.msg, a.value.msg))
    else if b == a then [] else [[f]]
  }

  function FieldsDiff(schema: Schema, fs: seq<Field>, before: Message, after: Message): seq<Path>
    decreases before, 1, |fs|
  {
    if fs == [] then []
    else FieldsDiff(schema, fs[..|fs| - 1], before, after) + FieldDiff(schema, fs[|fs| - 1], before, after)
  }

  /** The mask `Calculate` computes, with each path as the fields it goes through. */
  function Diff(schema: Schema, ty: string, before: Message, after: Message): seq<Path>
    decreases before, 2, 0
  {
    if ty in schema then FieldsDiff(schema, schema[ty], before, after) else []
  }

  // ---------------------------------------------------------------- applying a mask

  function EditFor(request: Message, p: Path): Edit {
    var v := Read(request, p);
    if v.Some? then Put(v.value) else Del
  }

  /** The update loop of the server: each path of the mask is set from the request, or cleared when it is absent
      there. */
  function Patch(m: Message, mask: seq<Path>, request: Message): Message
    decreases |mask|
  {
    if mask == [] then m
    else
      var p := mask[|mask| - 1];
      Apply(Patch(m, mask[..|mask| - 1], request), p, EditFor(request, p))
  }

  lemma {:induction false} PatchAppend(m: Message, a: seq<Path>, b: seq<Path>, request: Message)
    ensures Patch(m, a + b, request) == Patch(Patch(m, a, request), b, request)
    decreases |b|
  {
    if b == [] {
      assert a + b == a;
    } else {
      assert (a + b)[..|a + b| - 1] == a + b[..|b| - 1];
      PatchAppend(m, a, b[..|b| - 1], request);
    }
  }

  predicate NonEmptyPaths(paths: seq<Path>) {
    forall i :: 0 <= i < |paths| ==> paths[i] != []
  }

  /** Paths below a field that holds a message act on that message only. */
  lemma {:induction false} PatchBelow(m: Message, f: Field, paths: seq<Path>, request: Message)
    requires Slot(m, f.name).Some? && m.fields[f.name].Sub?
    requires Slot(request, f.name).Some? && request.fields[f.name].Sub?
    requires NonEmptyPaths(paths)
    ensures Patch(m, Prefixed(f, paths), request) ==
      SetSlot(m, f.name, Some(Sub(Patch(m.fields[f.name].msg, paths, request.fields[f.name].msg))))
    decreases |paths|
  {
    if paths == [] {
      SetSlotAbsorbs(m, f.name, None, None);
    } else {
      var init, p := paths[..|paths| - 1], paths[|paths| - 1];
      PatchBelow(m, f, init, request);
      assert Prefixed(f, paths)[..|paths| - 1] == Prefixed(f, init);
      assert Prefixed(f, paths)[|paths| - 1] == [f] + p;
      assert ([f] + p)[1..] == p;
      ReadUnfold(request, [f] + p);
      var child := Patch(m.fields[f.name].msg, init, request.fields[f.name].msg);
      var e := EditFor(request, [f] + p);
      assert e == EditFor(request.fields[f.name].msg, p);
      var here := SetSlot(m, f.name, Some(Sub(child)));
      assert Patch(m, Prefixed(f, paths), request) == Apply(here, [f] + p, e);
      assert EditSlot(Slot(here, f.name), [f] + p, e) == Some(Sub(Apply(child, p, e)));
      SetSlotAbsorbs(m, f.name, Some(Sub(child)), Some(Sub(Apply(child, p, e))));
    }
  }

  // ---------------------------------------------------------------- round trip

  /** The message that agrees with `after` on the given fields and with `before` on the others. */
  function Mixed(fs: seq<Field>, before: Message, after: Message): Message
    decreases |fs|
  {
    if fs == [] then before
    else
      var name := fs[|fs| - 1].name;
      SetSlot(Mixed(fs[..|fs| - 1], before, after), name, Slot(after, name))
  }

  lemma {:induction false} MixedSlot(fs: seq<Field>, before: Message, after: Message, name: string)
    ensures Slot(Mixed(fs, before, after), name) ==
      if exists f <- fs :: f.name == name then Slot(after, name) else Slot(before, name)
    decreases |fs|
  {
    if fs != [] {
      MixedSlot(fs[..|fs| - 1], before, after, name);
      assert fs == fs[..|fs| - 1] + [fs[|fs| - 1]];
    }
  }

  lemma SlotsDetermine(m: Message, n: Message)
    requires forall name :: Slot(m, name) == Slot(n, name)
    ensures m == n
  {
    forall name ensures name in m.fields <==> name in n.fields { assert Slot(m, name) == Slot(n, name); }
    forall name | name in m.fields ensures m.fields[name] == n.fields[name] {
      assert Slot(m, name) == Slot(n, name);
    }
    assert m.fields == n.fields;
  }

  lemma {:induction false} DiffPathsNonEmpty(schema: Schema, fs: seq<Field>, before: Message, after: Message)
    ensures NonEmptyPaths(FieldsDiff(schema, fs, before, after))
    decreases |fs|
  {
    if fs != [] { DiffPathsNonEmpty(schema, fs[..|fs| - 1], before, after); }
  }

  /** Applying to `before` the mask computed from `before` and `after` gives exactly `after`. */
  lemma {:induction false} RoundTrip(schema: Schema, ty: string, before: Message, after: Message)
    requires ValidSchema(schema) && WellFormed(schema, ty, before) && WellFormed(schema, ty, after)
    ensures Patch(before, Diff(schema, ty, before, after), after) == after
    decreases before, 2, 0
  {
    FieldsRoundTrip(schema, ty, |schema[ty]|, before, after);
    var fs := schema[ty];
    assert fs[..|fs|] == fs;
    forall name ensures Slot(Mixed(fs, before, after), name) == Slot(after, name) {
      MixedSlot(fs, before, after, name);
    }
    SlotsDetermine(Mixed(fs, before, after), after);
  }

  lemma {:induction false} FieldsRoundTrip(schema: Schema, ty: string, n: nat, before: Message, after: Message)
    requires ValidSchema(schema) && WellFormed(schema, ty, before) && WellFormed(schema, ty, after)
    requires n <= |schema[ty]|
    ensures Patch(before, FieldsDiff(schema, schema[ty][..n], before, after), after) ==
            Mixed(schema[ty][..n], before, after)
    decreases before, 1, n
  {
    if n > 0 {
      var fs, init, f := schema[ty][..n], schema[ty][..n - 1], schema[ty][n - 1];
      assert fs[..|fs| - 1] == init && fs[|fs| - 1] == f && f in schema[ty];
      FieldsRoundTrip(schema, ty, n - 1, before, after);
      var done := Mixed(init, before, after);
      PatchAppend(before, FieldsDiff(schema, init, before, after), FieldDiff(schema, f, before, after), after);
      MixedSlot(init, before, after, f.name);
      assert Slot(done, f.name) == Slot(before, f.name);
      FieldRoundTrip(schema, ty, f, done, before, after);
    }
  }

  lemma {:induction false} FieldRoundTrip(schema: Schema, ty: string, f: Field, m: Message,
                                          before: Message, after: Message)
    requires ValidSchema(schema) && WellFormed(schema, ty, before) && WellFormed(schema, ty, after)
    requires f in schema[ty] && Slot(m, f.name) == Slot(before, f.name)
    ensures Patch(m, FieldDiff(schema, f, before, after), after) == SetSlot(m, f.name, Slot(after, f.name))
    decreases before, 0, 0
  {
    var b, a := Slot(before, f.name), Slot(after, f.name);
    SetSlotAbsorbs(m, f.name, a, a);
    if f.shape.SingularMessage? && b.Some? && b.value.Sub? && a.Some? && a.value.Sub? {
      var paths := Diff(schema, f.shape.messageType, b.value.msg, a.value.msg);
      DiffPathsNonEmpty(schema, schema[f.shape.messageType], b.value.msg, a.value.msg);
      PatchBelow(m, f, paths, after);
      RoundTrip(schema, f.shape.messageType, b.value.msg, a.value.msg);
    } else if b != a {
      assert [[f]][..0] == [] && [f][1..] == [];
      assert Patch(m, [[f]], after) == Apply(m, [f], EditFor(after, [f]));
      ReadUnfold(after, [f]);
      assert EditSlot(Slot(m, f.name), [f], EditFor(after, [f])) == a;
    }
  }

  // ---------------------------------------------------------------- the mask is tight

  /** Every path of the mask is a path of the descriptor and really reads differently on both sides. */
  ghost predicate Witnessed(schema: Schema, ty: string, before: Message, after: Message, p: Path) {
    p != [] && Typed(schema, ty, p) && Read(before, p) != Read(after, p)
  }

  lemma {:induction false} DiffIsWitnessed(schema: Schema, ty: string, before: Message, after: Message)
    requires ValidSchema(schema) && WellFormed(schema, ty, before) && WellFormed(schema, ty, after)
    ensures forall p <- Diff(schema, ty, before, after) :: Witnessed(schema, ty, before, after, p)
    decreases before, 2, 0
  {
    forall p | p in Diff(schema, ty, before, after)
      ensures Witnessed(schema, ty, before, after, p)
    {
      var f := DiffPathField(schema, schema[ty], before, after, p);
      FieldDiffIsWitnessed(schema, ty, f, before, after, p);
    }
  }

  /** Each path of the mask comes from one of the fields. */
  lemma {:induction false} DiffPathField(schema: Schema, fs: seq<Field>, before: Message, after: Message, p: Path)
    returns (f: Field)
    requires p in FieldsDiff(schema, fs, before, after)
    ensures f in fs && p in FieldDiff(schema, f, before, after) && p != [] && p[0] == f
    decreases |fs|
  {
    if p in FieldDiff(schema, fs[|fs| - 1], before, after) {
      f := fs[|fs| - 1];
    } else {
      f := DiffPathField(schema, fs[..|fs| - 1], before, after, p);
    }
  }

  lemma {:induction false} FieldDiffIsWitnessed(schema: Schema, ty: string, f: Field, before: Message,
                                                after: Message, p: Path)
    requires ValidSchema(schema) && WellFormed(schema, ty, before) && WellFormed(schema, ty, after)
    requires f in schema[ty] && p in FieldDiff(schema, f, before, after)
    ensures Witnessed(schema, ty, before, after, p)
    decreases before, 0, 0
  {
    var b, a := Slot(before, f.name), Slot(after, f.name);
    ReadUnfold(before, p);
    ReadUnfold(after, p);
    if f.shape.SingularMessage? && b.Some? && b.value.Sub? && a.Some? && a.value.Sub? {
      var tail := p[1..];
      assert tail in Diff(schema, f.shape.messageType, b.value.msg, a.value.msg);
      DiffIsWitnessed(schema, f.shape.messageType, b.value.msg, a.value.msg);
      assert Witnessed(schema, f.shape.messageType, b.value.msg, a.value.msg, tail);
    } else {
      assert p == [f] && p[1..] == [];
    }
  }

  /** No emitted path is a prefix of another and none is emitted twice. */
  lemma {:induction false} DiffIsAntichain(schema: Schema, ty: string, before: Message, after: Message)
    requires ValidSchema(schema) && WellFormed(schema, ty, before) && WellFormed(schema, ty, after)
    ensures Antichain(Diff(schema, ty, before, after))
    decreases before, 2, 0
  {
    FieldsDiffIsAntichain(schema, ty, |schema[ty]|, before, after);
    assert schema[ty][..|schema[ty]|] == schema[ty];
  }

  lemma {:induction false} FieldsDiffIsAntichain(schema: Schema, ty: string, n: nat, before: Message, after: Message)
    requires ValidSchema(schema) && WellFormed(schema, ty, before) && WellFormed(schema, ty, after)
    requires n <= |schema[ty]|
    ensures Antichain(FieldsDiff(schema, schema[ty][..n], before, after))
    decreases before, 1, n
  {
    if n > 0 {
      var fs, init, f := schema[ty][..n], schema[ty][..n - 1], schema[ty][n - 1];
      assert fs[..|fs| - 1] == init && fs[|fs| - 1] == f && f in schema[ty];
      FieldsDiffIsAntichain(schema, ty, n - 1, before, after);
      FieldDiffIsAntichain(schema, ty, f, before, after);
      forall p, q | p in FieldsDiff(schema, init, before, after) && q in FieldDiff(schema, f, before, after)
        ensures Diverge(p, q)
      {
        var g := DiffPathField(schema, init, before, after, p);
        assert q[0] == f;
      }
    }
  }

  lemma {:induction false} FieldDiffIsAntichain(schema: Schema, ty: string, f: Field, before: Message, after: Message)
    requires ValidSchema(schema) && WellFormed(schema, ty, before) && WellFormed(schema, ty, after)
    requires f in schema[ty]
    ensures Antichain(FieldDiff(schema, f, before, after))
    decreases before, 0, 0
  {
    var b, a := Slot(before, f.name), Slot(after, f.name);
    if f.shape.SingularMessage? && b.Some? && b.value.Sub? && a.Some? && a.value.Sub? {
      var paths := Diff(schema, f.shape.messageType, b.value.msg, a.value.msg);
      DiffIsAntichain(schema, f.shape.messageType, b.value.msg, a.value.msg);
      forall i, j | 0 <= i < j < |paths| ensures Diverge([f] + paths[i], [f] + paths[j]) {
        assert ([f] + paths[i])[1..] == paths[i] && ([f] + paths[j])[1..] == paths[j];
      }
    }
  }

  // ---------------------------------------------------------------- the calculator

  /** The text of a path below a prefix, built the way the calculator does. */
  function Text(prefix: string, p: Path): string
    decreases |p|
  {
    if p == [] then prefix else Text(Extend(prefix, p[0].name), p[1..])
  }

  function Extend(prefix: string, name: string): string {
    if prefix == "" then name else prefix + "." + name
  }

  function Texts(prefix: string, paths: seq<Path>): (texts: seq<string>)
    ensures |texts| == |paths|
    ensures forall i :: 0 <= i < |texts| ==> texts[i] == Text(prefix, paths[i])
  {
    seq(|paths|, i requires 0 <= i < |paths| => Text(prefix, paths[i]))
  }

  lemma TextsBelow(prefix: string, f: Field, paths: seq<Path>)
    ensures Texts(prefix, Prefixed(f, paths)) == Texts(Extend(prefix, f.name), paths)
  {
    forall i | 0 <= i < |paths|
      ensures Text(prefix, [f] + paths[i]) == Text(Extend(prefix, f.name), paths[i])
    {
      assert ([f] + paths[i])[1..] == paths[i];
    }
  }

  /** The items of a repeated field: `Get` gives an empty list when the field is absent. */
  function ItemsOf(m: Message, f: Field): seq<Value> {
    if f.name in m.fields && m.fields[f.name].List? then m.fields[f.name].items else []
  }

  /** The entries of a map field: `Get` gives an empty map when the field is absent. */
  function EntriesOf(m: Message, f: Field): map<string, Value> {
    if f.name in m.fields && m.fields[f.name].Dict? then m.fields[f.name].entries else map[]
  }

  /** Compares two repeated fields element by element. */
  method CompareLists(before: seq<Value>, after: seq<Value>) returns (equal: bool)
    ensures equal <==> before == after
  {
    if |before| != |after| { return false; }
    var i := 0;
    while i < |before|
      invariant 0 <= i <= |before|
      invariant before[..i] == after[..i]
    {
      if before[i] != after[i] { return false; }
      i := i + 1;
    }
    assert before[..i] == before && after[..i] == after;
    return true;
  }

  /** Compares two map fields by visiting the keys of the first one in any order. */
  method CompareMaps(before: map<string, Value>, after: map<string, Value>) returns (equal: bool)
    ensures equal <==> before == after
  {
    if |before| != |after| { return false; }
    equal := true;
    var pending := before.Keys;
    while pending != {} && equal
      invariant pending <= before.Keys
      invariant equal ==> forall k <- before.Keys - pending :: k in after && before[k] == after[k]
      invariant !equal ==> before != after
      decreases pending, equal
    {
      var k :| k in pending;
      if k !in after || before[k] != after[k] {
        equal := false;
      } else {
        pending := pending - {k};
      }
    }
    if equal {
      SameSizeSubset(before.Keys, after.Keys);
      assert before.Keys == after.Keys;
    }
  }

  lemma SameSizeSubset<T>(a: set<T>, b: set<T>)
    requires a <= b && |a| == |b|
    ensures a == b
  {
    assert |b - a| == |b| - |a|;
  }

  /** The contribution of one field: one arm per kind of field, as in the loop of the calculator. */
  method CompareField(schema: Schema, ty: string, fd: Field, before: Message, after: Message, prefix: string)
    returns (paths: seq<string>)
    requires ValidSchema(schema) && WellFormed(schema, ty, before) && WellFormed(schema, ty, after)
    requires fd in schema[ty]
    ensures paths == Texts(prefix, FieldDiff(schema, fd, before, after))
    decreases before, 0
  {
    var fieldPath := if prefix == "" then fd.name else prefix + "." + fd.name;
    assert [fd][1..] == [] && Text(prefix, [fd]) == fieldPath;
    paths := [];
    if fd.shape.MapField? {
      var same := CompareMaps(EntriesOf(before, fd), EntriesOf(after, fd));
      if !same { paths := [fieldPath]; }
    } else if fd.shape.RepeatedField? {
      var same := CompareLists(ItemsOf(before, fd), ItemsOf(after, fd));
      if !same { paths := [fieldPath]; }
    } else {
      var hasInBefore, hasInAfter := fd.name in before.fields, fd.name in after.fields;
      if hasInBefore && hasInAfter {
        var beforeVal, afterVal := before.fields[fd.name], after.fields[fd.name];
        if fd.shape.SingularMessage? {
          paths := CompareMessages(schema, fd.shape.messageType, beforeVal.msg, afterVal.msg, fieldPath);
          TextsBelow(prefix, fd, Diff(schema, fd.shape.messageType, beforeVal.msg, afterVal.msg));
        } else if beforeVal != afterVal {
          paths := [fieldPath];
        }
      } else if !hasInBefore && hasInAfter {
        paths := [fieldPath];
      } else if hasInBefore && !hasInAfter {
        paths := [fieldPath];
      }
    }
  }

  lemma TextsOfNextField(schema: Schema, fields: seq<Field>, before: Message, after: Message, prefix: string, i: nat)
    requires i < |fields|
    ensures Texts(prefix, FieldsDiff(schema, fields[..i + 1], before, after)) ==
      Texts(prefix, FieldsDiff(schema, fields[..i], before, after)) +
      Texts(prefix, FieldDiff(schema, fields[i], before, after))
  {
    assert fields[..i + 1][..i] == fields[..i];
  }

  /** Calculates the mask: the texts of exactly the paths of `Diff`, in descriptor order. */
  method CompareMessages(schema: Schema, ty: string, before: Message, after: Message, prefix: string)
    returns (paths: seq<string>)
    requires ValidSchema(schema) && WellFormed(schema, ty, before) && WellFormed(schema, ty, after)
    ensures paths == Texts(prefix, Diff(schema, ty, before, after))
    decreases before, 1
  {
    paths := [];
    var fields := schema[ty];
    for i := 0 to |fields|
      invariant paths == Texts(prefix, FieldsDiff(schema, fields[..i], before, after))
    {
      var more := CompareField(schema, ty, fields[i], before, after, prefix);
      paths := paths + more;
      TextsOfNextField(schema, fields, before, after, prefix, i);
    }
    assert fields[..|fields|] == fields;
  }

  method Calculate(schema: Schema, ty: string, before: Message, after: Message) returns (mask: seq<string>)
    requires ValidSchema(schema) && WellFormed(schema, ty, before) && WellFormed(schema, ty, after)
    ensures mask == Texts("", Diff(schema, ty, before, after))
  {
    mask := CompareMessages(schema, ty, before, after, "");
  }
}
