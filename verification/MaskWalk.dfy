/** Which compiled paths can be walked: `Path.Get`, `Path.Set` and `Path.Clear` panic when they come upon a scalar
    before the last step (internal/masks/mask_path.go), and the compiler lets such paths through
    (internal/masks/mask_path_compiler.go). */
module MaskWalk {
  import opened Wrappers
  import opened Messages
  import opened MaskCompiler
  import Strings

  /** Every field that the path goes through holds a message, if anything. */
  predicate Walkable(m: Message, p: Path) {
    |p| > 1 && p[0].name in m.fields ==>
      m.fields[p[0].name].Sub? && Walkable(m.fields[p[0].name].msg, p[1..])
  }

  /** Some text compiles into the path. */
  ghost predicate Compiled(schema: Schema, ty: string, p: Path) {
    Canonical(schema, ty, FieldSteps(p))
  }

  lemma CompiledIff(schema: Schema, ty: string, p: Path)
    requires ValidSchema(schema) && ty in schema
    ensures Compiled(schema, ty, p) <==> exists text :: CompileText(schema, ty, text) == Ok(FieldSteps(p))
  {
    if Compiled(schema, ty, p) {
      CompilePrint(schema, ty, FieldSteps(p));
    }
    forall text | CompileText(schema, ty, text) == Ok(FieldSteps(p)) ensures Compiled(schema, ty, p) {
      CompileNormalizes(schema, ty, text);
    }
  }

  lemma CompiledUnfold(schema: Schema, ty: string, p: Path)
    requires Compiled(schema, ty, p) && p != []
    ensures ty in schema && p[0] in schema[ty] && PlainSegment(p[0].name)
    ensures |p| > 1 ==> p[0].shape.SingularScalar? || p[0].shape.SingularMessage?
    ensures Compiled(schema, NextType(ty, p[0].shape), p[1..])
  {
    assert FieldSteps(p)[1..] == FieldSteps(p[1..]);
  }

  // ---------------------------------------------------------------- typed paths are the safe ones

  lemma {:induction false} TypedIsWalkable(schema: Schema, ty: string, m: Message, p: Path)
    requires WellFormed(schema, ty, m) && Typed(schema, ty, p)
    ensures Walkable(m, p)
    decreases |p|
  {
    if |p| > 1 && p[0].name in m.fields {
      TypedIsWalkable(schema, p[0].shape.messageType, m.fields[p[0].name].msg, p[1..]);
    }
  }

  lemma {:induction false} TypedGoesThroughMessages(schema: Schema, ty: string, p: Path)
    requires Typed(schema, ty, p)
    ensures forall i :: 0 <= i < |p| - 1 ==> p[i].shape.SingularMessage?
    decreases |p|
  {
    if |p| > 1 {
      TypedGoesThroughMessages(schema, p[0].shape.messageType, p[1..]);
      assert forall i :: 1 <= i < |p| ==> p[i] == p[1..][i - 1];
    }
  }

  /** A compiled path that reads something goes through messages only. */
  lemma {:induction false} ReadIsTyped(schema: Schema, ty: string, m: Message, p: Path)
    requires WellFormed(schema, ty, m) && Compiled(schema, ty, p) && Read(m, p).Some?
    ensures Typed(schema, ty, p)
    decreases |p|
  {
    if p != [] {
      CompiledUnfold(schema, ty, p);
      ReadUnfold(m, p);
      if |p| > 1 { ReadIsTyped(schema, p[0].shape.messageType, m.fields[p[0].name].msg, p[1..]); }
    }
  }

  // ---------------------------------------------------------------- how far a write gets

  /** How many steps of the path `Path.Set` goes through: up to the first field that does not hold a message, if
      there is one before the last. */
  function Steps(p: Path): (n: nat)
    ensures n <= |p| && (p != [] ==> n > 0)
  {
    if |p| <= 1 then |p| else if p[0].shape.SingularMessage? then 1 + Steps(p[1..]) else 1
  }

  function Reach(p: Path): Path { p[..Steps(p)] }

  lemma {:induction false} ReachSteps(p: Path)
    ensures forall i :: 0 <= i < |Reach(p)| - 1 ==> p[i].shape.SingularMessage?
    ensures |Reach(p)| < |p| ==> !p[|Reach(p)| - 1].shape.SingularMessage?
  {
    if |p| > 1 && p[0].shape.SingularMessage? {
      ReachSteps(p[1..]);
      assert forall i :: 1 <= i < |p| ==> p[i] == p[1..][i - 1];
    }
  }

  lemma {:induction false} ThroughMessagesIsTyped(schema: Schema, ty: string, p: Path, q: Path)
    requires Compiled(schema, ty, p) && q <= p && forall i :: 0 <= i < |q| - 1 ==> q[i].shape.SingularMessage?
    ensures Typed(schema, ty, q)
    decreases |p|
  {
    if q != [] {
      CompiledUnfold(schema, ty, p);
      if |q| > 1 {
        assert q[1..] <= p[1..] && forall i :: 0 <= i < |q| - 2 ==> q[1..][i] == q[i + 1];
        ThroughMessagesIsTyped(schema, p[0].shape.messageType, p[1..], q[1..]);
      }
    }
  }

  lemma {:induction false} CompiledSteps(schema: Schema, ty: string, p: Path, i: nat)
    requires Compiled(schema, ty, p) && i + 1 < |p|
    ensures p[i].shape.SingularScalar? || p[i].shape.SingularMessage?
    decreases |p|
  {
    CompiledUnfold(schema, ty, p);
    if i > 0 { CompiledSteps(schema, NextType(ty, p[0].shape), p[1..], i - 1); }
  }

  /** What is walked of a compiled path is typed. */
  lemma ReachIsTyped(schema: Schema, ty: string, p: Path)
    requires Compiled(schema, ty, p)
    ensures Typed(schema, ty, Reach(p))
  {
    ReachSteps(p);
    assert Reach(p) <= p;
    ThroughMessagesIsTyped(schema, ty, p, Reach(p));
  }

  /** A walk that stops before the end of a compiled path, after k steps, stops at a scalar. */
  lemma ReachStopsAtScalar(schema: Schema, ty: string, p: Path, k: nat)
    requires Compiled(schema, ty, p) && 0 < k < |p| && !p[k - 1].shape.SingularMessage?
    ensures p[k - 1].shape.SingularScalar?
  {
    CompiledSteps(schema, ty, p, k - 1);
  }

  /** A compiled path is walked to its end exactly when it is typed. */
  lemma ReachesEndIff(schema: Schema, ty: string, p: Path)
    requires Compiled(schema, ty, p)
    ensures |Reach(p)| == |p| <==> Typed(schema, ty, p)
  {
    ReachSteps(p);
    if |Reach(p)| == |p| {
      assert Reach(p) == p;
      ReachIsTyped(schema, ty, p);
    } else if Typed(schema, ty, p) {
      TypedGoesThroughMessages(schema, ty, p);
    }
  }

  /** The default of a scalar.  For one with explicit presence the empty text stands for it. */
  function Default(shape: Shape): (v: Value)
    requires shape.SingularScalar?
    ensures v.Scalar?
  {
    Scalar(if shape.implicitDefault.Some? then shape.implicitDefault.value else Atom(""))
  }

  /** What `Path.Set` does along the part of the path that it reaches: it writes the value; or, when it panics, the
      default of the scalar at which it does, unless the scalar is already set. */
  function SetEdit(m: Message, p: Path, v: Value): Edit {
    var q := Reach(p);
    if |q| == |p| then Put(v)
    else if Read(m, q).Some? then Put(Read(m, q).value)
    else if q != [] && q[|q| - 1].shape.SingularScalar? then Put(Default(q[|q| - 1].shape))
    else Put(v)
  }

  /** A write that panics leaves at the scalar what was there, or else its default, which is stored only for a
      scalar with explicit presence. */
  lemma PanickedWriteReads(m: Message, p: Path, v: Value)
    requires p != [] && |Reach(p)| < |p| && p[|Reach(p)| - 1].shape.SingularScalar?
    requires Read(m, Reach(p)).Some? ==> Present(p[|Reach(p)| - 1].shape, Read(m, Reach(p)).value)
    ensures var after := Read(Apply(m, Reach(p), SetEdit(m, p, v)), Reach(p));
      if Read(m, Reach(p)).Some? then after == Read(m, Reach(p))
      else if p[|Reach(p)| - 1].shape.implicitDefault.Some? then after == None
      else after == Some(Scalar(Atom("")))
  {
    ReadAfterEdit(m, Reach(p), SetEdit(m, p, v));
  }

  /** A value of the scalar that counts as present. */
  function PresentScalar(shape: Shape): (v: Value)
    requires shape.SingularScalar?
    ensures Present(shape, v)
  {
    if shape.implicitDefault == Some(Atom("")) then Scalar(Atom("x")) else Scalar(Atom(""))
  }

  lemma OneFieldIsWellFormed(schema: Schema, ty: string, f: Field, v: Value)
    requires ValidSchema(schema) && ty in schema && f in schema[ty]
    requires Present(f.shape, v) && WellFormedValue(schema, f.shape, v)
    ensures WellFormed(schema, ty, Message(map[f.name := v]))
  {
    forall g | g in schema[ty] && g.name == f.name ensures g == f {
      var i, j :| 0 <= i < |schema[ty]| && 0 <= j < |schema[ty]| && schema[ty][i] == f && schema[ty][j] == g;
    }
  }

  /** A compiled path that is not typed has a well formed message on which it cannot be walked. */
  lemma {:induction false} UntypedFails(schema: Schema, ty: string, p: Path) returns (m: Message)
    requires ValidSchema(schema) && ty in schema && Compiled(schema, ty, p) && !Typed(schema, ty, p)
    ensures WellFormed(schema, ty, m) && !Walkable(m, p)
    decreases |p|
  {
    CompiledUnfold(schema, ty, p);
    var f := p[0];
    if f.shape.SingularScalar? {
      m := Message(map[f.name := PresentScalar(f.shape)]);
      OneFieldIsWellFormed(schema, ty, f, PresentScalar(f.shape));
    } else {
      assert ShapeInSchema(schema, f.shape);
      var below := UntypedFails(schema, f.shape.messageType, p[1..]);
      m := Message(map[f.name := Sub(below)]);
      OneFieldIsWellFormed(schema, ty, f, Sub(below));
    }
  }

  /** The compiled paths that can be walked on every message of the descriptor are exactly the typed ones. */
  lemma WalkableIffTyped(schema: Schema, ty: string, p: Path)
    requires ValidSchema(schema) && ty in schema && Compiled(schema, ty, p)
    ensures (forall m | WellFormed(schema, ty, m) :: Walkable(m, p)) <==> Typed(schema, ty, p)
  {
    if Typed(schema, ty, p) {
      forall m | WellFormed(schema, ty, m) ensures Walkable(m, p) { TypedIsWalkable(schema, ty, m, p); }
    } else {
      var m := UntypedFails(schema, ty, p);
    }
  }

  lemma TwoStepsText(f: Field, name: string)
    requires f.name == name
    ensures Print([FieldStep(f), FieldStep(f)]) == name + "." + name
  {
    var steps := [FieldStep(f), FieldStep(f)];
    assert steps[1..] == [FieldStep(f)] && [FieldStep(f)][1..] == [];
    assert Pieces([FieldStep(f)]) == [name] && Pieces(steps) == [name, name];
    assert [name, name] == [name] + [name] && Strings.Join([name], '.') == name;
    JoinNext(name, [name]);
  }

  lemma TwoScalarSteps(schema: Schema, ty: string, f: Field)
    requires ty in schema && f in schema[ty] && f.shape.SingularScalar? && PlainSegment(f.name)
    ensures Canonical(schema, ty, [FieldStep(f), FieldStep(f)])
  {
    var steps := [FieldStep(f), FieldStep(f)];
    assert steps[1..] == [FieldStep(f)] && [FieldStep(f)][1..] == [];
    assert Canonical(schema, ty, [FieldStep(f)]);
  }

  /** The text "id.id" compiles although `id` is a scalar, and cannot be walked once `id` is set. */
  lemma ScalarInTheMiddleExample()
    ensures var f := Field("id", SingularScalar(None));
      var schema, m := map["T" := [f]], Message(map["id" := Scalar(Atom("1"))]);
      && ValidSchema(schema) && CompileText(schema, "T", "id.id") == Ok([FieldStep(f), FieldStep(f)])
      && !Typed(schema, "T", [f, f]) && WellFormed(schema, "T", m) && !Walkable(m, [f, f]) && Walkable(EMPTY, [f, f])
  {
    var f := Field("id", SingularScalar(None));
    var schema, steps := map["T" := [f]], [FieldStep(f), FieldStep(f)];
    assert f in schema["T"] by { assert schema["T"][0] == f; }
    assert "id" + "." + "id" == "id.id" && PlainSegment("id");
    TwoStepsText(f, "id");
    TwoScalarSteps(schema, "T", f);
    CompilePrint(schema, "T", steps);
    assert forall g <- schema["T"] :: g == f;
    OneFieldIsWellFormed(schema, "T", f, Scalar(Atom("1")));
  }
}
