/** The path compiler: text to typed steps (internal/masks/mask_path_compiler.go). */
module MaskCompiler {
  import opened Wrappers
  import opened Messages
  import MaskCalculator
  import Strings

  /** A compiled step: a whole field, one element of a list, or one entry of a map. */
  datatype Step =
    | FieldStep(field: Field)
    | IndexStep(field: Field, index: int)
    | KeyStep(field: Field, key: string)

  datatype Error = FieldNotFound(name: string) | InvalidIndex(text: string)

  datatype Result = Ok(steps: seq<Step>) | Err(error: Error)

  // ---------------------------------------------------------------- what compilation means

  function FindField(fs: seq<Field>, name: string): Option<Field> {
    if fs == [] then None else if fs[0].name == name then Some(fs[0]) else FindField(fs[1..], name)
  }

  lemma {:induction false} FindFieldFinds(fs: seq<Field>, name: string)
    ensures FindField(fs, name).Some? ==> FindField(fs, name).value in fs && FindField(fs, name).value.name == name
    ensures FindField(fs, name).None? ==> forall f <- fs :: f.name != name
    ensures DistinctNames(fs) ==> forall f <- fs :: f.name == name ==> FindField(fs, name) == Some(f)
  {
    if fs != [] {
      FindFieldFinds(fs[1..], name);
      assert fs == [fs[0]] + fs[1..];
      if DistinctNames(fs) {
        assert DistinctNames(fs[1..]);
        forall f | f in fs && f.name == name ensures FindField(fs, name) == Some(f) {
          var i :| 0 <= i < |fs| && fs[i] == f;
        }
      }
    }
  }

  /** The descriptor the next segment is resolved against: it moves only through messages. */
  function NextType(ty: string, shape: Shape): string {
    match shape
    case SingularScalar(_) => ty
    case SingularMessage(messageType) => messageType
    case RepeatedField(element) => if element.Some? then element.value else ty
    case MapField(value) => if value.Some? then value.value else ty
  }

  function Prepend(steps: seq<Step>, r: Result): Result {
    if r.Ok? then Ok(steps + r.steps) else r
  }

  /** Resolves the segments one after the other. */
  function Resolve(schema: Schema, ty: string, segments: seq<string>): Result
    requires ty in schema && ValidSchema(schema)
    decreases |segments|
  {
    if segments == [] then Ok([])
    else
      var found := FindField(schema[ty], segments[0]);
      if found.None? then Err(FieldNotFound(segments[0]))
      else
        FindFieldFinds(schema[ty], segments[0]);
        var f := found.value;
        var next := NextType(ty, f.shape);
        if f.shape.RepeatedField? && |segments| > 1 then
          var index := Strings.Atoi(segments[1]);
          if index.None? then Err(InvalidIndex(segments[1]))
          else Prepend([IndexStep(f, index.value)], Resolve(schema, next, segments[2..]))
        else if f.shape.MapField? && |segments| > 1 then
          Prepend([KeyStep(f, segments[1])], Resolve(schema, next, segments[2..]))
        else
          Prepend([FieldStep(f)], Resolve(schema, next, segments[1..]))
  }

  /** The segments of a text: what remains of its parts after trimming them and dropping the empty ones. */
  function Clean(parts: seq<string>): seq<string> {
    if parts == [] then []
    else
      var part := Strings.TrimSpace(parts[|parts| - 1]);
      Clean(parts[..|parts| - 1]) + if part == "" then [] else [part]
  }

  function Segments(path: string): seq<string> { Clean(Strings.Split(path, '.')) }

  function CompileText(schema: Schema, ty: string, path: string): Result
    requires ty in schema && ValidSchema(schema)
  {
    Resolve(schema, ty, Segments(path))
  }

  // ---------------------------------------------------------------- the compiler

  /** Trims every chunk inside the array. */
  method TrimChunks(chunks: array<string>)
    modifies chunks
    ensures forall k :: 0 <= k < chunks.Length ==> chunks[k] == Strings.TrimSpace(old(chunks[k]))
  {
    for i := 0 to chunks.Length
      invariant forall k :: 0 <= k < i ==> chunks[k] == Strings.TrimSpace(old(chunks[k]))
      invariant forall k :: i <= k < chunks.Length ==> chunks[k] == old(chunks[k])
    {
      chunks[i] := Strings.TrimSpace(chunks[i]);
    }
  }

  method CollectChunks(chunks: array<string>, ghost parts: seq<string>) returns (result: seq<string>)
    requires |parts| == chunks.Length
    requires forall k :: 0 <= k < |parts| ==> chunks[k] == Strings.TrimSpace(parts[k])
    ensures result == Clean(parts)
  {
    result := [];
    for i := 0 to chunks.Length
      invariant result == Clean(parts[..i])
    {
      if chunks[i] != "" { result := result + [chunks[i]]; }
      CleanSnoc(parts[..i], parts[i]);
      assert parts[..i + 1] == parts[..i] + [parts[i]];
    }
    assert parts[..chunks.Length] == parts;
  }

  /** Splits a path: the chunks are trimmed in place and the non-empty ones are collected. */
  method SplitPath(path: string) returns (result: seq<string>)
    ensures result == Segments(path)
  {
    var parts := Strings.Split(path, '.');
    var chunks := new string[|parts|](i requires 0 <= i < |parts| => parts[i]);
    TrimChunks(chunks);
    result := CollectChunks(chunks, parts);
  }

  lemma CleanSnoc(parts: seq<string>, part: string)
    ensures Clean(parts + [part]) ==
      Clean(parts) + if Strings.TrimSpace(part) == "" then [] else [Strings.TrimSpace(part)]
  {
    assert (parts + [part])[..|parts|] == parts;
  }

  lemma NextTypeExists(schema: Schema, ty: string, f: Field)
    requires ValidSchema(schema) && ty in schema && f in schema[ty]
    ensures NextType(ty, f.shape) in schema
  {
    assert ShapeInSchema(schema, f.shape);
  }

  lemma PrependStep(steps: seq<Step>, step: Step, r: Result)
    ensures Prepend(steps, Prepend([step], r)) == Prepend(steps + [step], r)
  {
  }

  /** The step that the first segments denote, and how many of them it takes. */
  method CompileStep(schema: Schema, desc: string, segments: seq<string>)
    returns (error: Option<Error>, step: Step, used: nat)
    requires desc in schema && ValidSchema(schema) && segments != []
    ensures error.Some? ==> Resolve(schema, desc, segments) == Err(error.value)
    ensures error.None? ==> 1 <= used <= |segments| && step.field in schema[desc]
    ensures error.None? ==> NextType(desc, step.field.shape) in schema
    ensures error.None? ==>
      Resolve(schema, desc, segments) ==
      Prepend([step], Resolve(schema, NextType(desc, step.field.shape), segments[used..]))
  {
    error, step, used := None, FieldStep(Field("", SingularScalar(None))), 1;
    var found := FindField(schema[desc], segments[0]);
    if found.None? { error := Some(FieldNotFound(segments[0])); return; }
    FindFieldFinds(schema[desc], segments[0]);
    var field := found.value;
    NextTypeExists(schema, desc, field);
    step := FieldStep(field);
    if field.shape.RepeatedField? {
      if |segments| > 1 {
        var index := Strings.Atoi(segments[1]);
        if index.None? { error := Some(InvalidIndex(segments[1])); return; }
        step, used := IndexStep(field, index.value), 2;
      }
    } else if field.shape.MapField? {
      if |segments| > 1 { step, used := KeyStep(field, segments[1]), 2; }
    }
  }

  /** Compiles a path by consuming its segments while the descriptor moves. */
  method Compile(schema: Schema, ty: string, path: string) returns (result: Result)
    requires ty in schema && ValidSchema(schema)
    ensures result == CompileText(schema, ty, path)
  {
    var segments := SplitPath(path);
    var steps: seq<Step> := [];
    var desc := ty;
    while |segments| > 0
      invariant desc in schema
      invariant CompileText(schema, ty, path) == Prepend(steps, Resolve(schema, desc, segments))
    {
      var error, step, used := CompileStep(schema, desc, segments);
      if error.Some? { return Err(error.value); }
      desc, segments := NextType(desc, step.field.shape), segments[used..];
      PrependStep(steps, step, Resolve(schema, desc, segments));
      steps := steps + [step];
    }
    return Ok(steps);
  }

  // ---------------------------------------------------------------- printing compiled steps

  predicate PlainSegment(s: string) {
    s != "" && Strings.Trimmed(s) && '.' !in s
  }

  function Pieces(steps: seq<Step>): seq<string> {
    if steps == [] then []
    else
      (match steps[0]
       case FieldStep(f) => [f.name]
       case IndexStep(f, i) => [f.name, Strings.Decimal(i)]
       case KeyStep(f, k) => [f.name, k]) + Pieces(steps[1..])
  }

  function Print(steps: seq<Step>): string { Strings.Join(Pieces(steps), '.') }

  /** The step sequences that some text denotes. */
  ghost predicate Canonical(schema: Schema, ty: string, steps: seq<Step>)
    decreases |steps|
  {
    steps == [] ||
    (var s := steps[0];
     && ty in schema && s.field in schema[ty] && PlainSegment(s.field.name)
     && (match s
         case FieldStep(f) => |steps| == 1 || f.shape.SingularScalar? || f.shape.SingularMessage?
         case IndexStep(f, i) => f.shape.RepeatedField? && Strings.MIN_INT64 <= i <= Strings.MAX_INT64
         case KeyStep(f, k) => f.shape.MapField? && PlainSegment(k))
     && Canonical(schema, NextType(ty, s.field.shape), steps[1..]))
  }

  ghost predicate AllPlain(segments: seq<string>) {
    forall i :: 0 <= i < |segments| ==> PlainSegment(segments[i])
  }

  lemma {:induction false} CleanIsPlain(parts: seq<string>)
    requires forall i :: 0 <= i < |parts| ==> '.' !in parts[i]
    ensures AllPlain(Clean(parts))
  {
    if parts != [] {
      CleanIsPlain(parts[..|parts| - 1]);
      Strings.TrimSpaceTrims(parts[|parts| - 1]);
    }
  }

  lemma {:induction false} CleanKeepsPlain(parts: seq<string>)
    requires AllPlain(parts)
    ensures Clean(parts) == parts
  {
    if parts != [] {
      CleanKeepsPlain(parts[..|parts| - 1]);
      assert PlainSegment(parts[|parts| - 1]);
      Strings.TrimSpaceTrims(parts[|parts| - 1]);
      assert parts == parts[..|parts| - 1] + [parts[|parts| - 1]];
    }
  }

  /** Printing plain segments and splitting the text again gives them back. */
  lemma SegmentsOfJoin(parts: seq<string>)
    requires AllPlain(parts)
    ensures Segments(Strings.Join(parts, '.')) == parts
  {
    if parts == [] {
      assert Strings.Split("", '.') == [""];
      assert Clean([""][..0]) == [] && Strings.TrimSpace("") == "";
    } else {
      forall i | 0 <= i < |parts| ensures '.' !in parts[i] { assert PlainSegment(parts[i]); }
      Strings.SplitJoin(parts, '.');
      CleanKeepsPlain(parts);
    }
  }

  lemma {:induction false} PiecesArePlain(schema: Schema, ty: string, steps: seq<Step>)
    requires Canonical(schema, ty, steps)
    ensures AllPlain(Pieces(steps))
    decreases |steps|
  {
    if steps != [] {
      PiecesArePlain(schema, NextType(ty, steps[0].field.shape), steps[1..]);
      if steps[0].IndexStep? { Strings.DecimalIsPlain(steps[0].index); }
    }
  }

  lemma {:induction false} ResolvePieces(schema: Schema, ty: string, steps: seq<Step>)
    requires ValidSchema(schema) && ty in schema && Canonical(schema, ty, steps)
    ensures Resolve(schema, ty, Pieces(steps)) == Ok(steps)
    decreases |steps|
  {
    if steps != [] {
      var f := steps[0].field;
      FindFieldFinds(schema[ty], f.name);
      ResolvePieces(schema, NextType(ty, f.shape), steps[1..]);
      assert steps == [steps[0]] + steps[1..];
      var rest := Pieces(steps[1..]);
      match steps[0]
      case FieldStep(_) =>
        assert ([f.name] + rest)[1..] == rest;
        if |steps| == 1 { assert steps[1..] == []; }
      case IndexStep(_, i) =>
        Strings.AtoiDecimal(i);
        assert ([f.name, Strings.Decimal(i)] + rest)[2..] == rest;
      case KeyStep(_, k) =>
        assert ([f.name, k] + rest)[2..] == rest;
    }
  }

  /** Compiling the text of any step sequence that a text can denote gives exactly those steps. */
  lemma CompilePrint(schema: Schema, ty: string, steps: seq<Step>)
    requires ValidSchema(schema) && ty in schema && Canonical(schema, ty, steps)
    ensures CompileText(schema, ty, Print(steps)) == Ok(steps)
  {
    PiecesArePlain(schema, ty, steps);
    SegmentsOfJoin(Pieces(steps));
    ResolvePieces(schema, ty, steps);
  }

  lemma {:induction false} ResolveIsCanonical(schema: Schema, ty: string, segments: seq<string>)
    requires ValidSchema(schema) && ty in schema && AllPlain(segments) && Resolve(schema, ty, segments).Ok?
    ensures Canonical(schema, ty, Resolve(schema, ty, segments).steps)
    decreases |segments|
  {
    if segments != [] {
      assert PlainSegment(segments[0]);
      FindFieldFinds(schema[ty], segments[0]);
      var f := FindField(schema[ty], segments[0]).value;
      var n := if |segments| > 1 && (f.shape.RepeatedField? || f.shape.MapField?) then 2 else 1;
      if n == 2 { assert PlainSegment(segments[1]); }
      forall i | 0 <= i < |segments| - n ensures PlainSegment(segments[n..][i]) {
        assert PlainSegment(segments[i + n]);
      }
      ResolveIsCanonical(schema, NextType(ty, f.shape), segments[n..]);
      var steps := Resolve(schema, ty, segments).steps;
      assert steps[1..] == Resolve(schema, NextType(ty, f.shape), segments[n..]).steps;
    }
  }

  /** The compiler accepts nothing else: what it returns is canonical, so printing it and compiling the result again is
      the identity. */
  lemma CompileNormalizes(schema: Schema, ty: string, path: string)
    requires ValidSchema(schema) && ty in schema && CompileText(schema, ty, path).Ok?
    ensures var steps := CompileText(schema, ty, path).steps;
      Canonical(schema, ty, steps) && CompileText(schema, ty, Print(steps)) == Ok(steps)
  {
    Strings.SplitPartsHaveNoSep(path, '.');
    CleanIsPlain(Strings.Split(path, '.'));
    ResolveIsCanonical(schema, ty, Segments(path));
    CompilePrint(schema, ty, CompileText(schema, ty, path).steps);
  }

  // ---------------------------------------------------------------- which texts compile, and into what

  /** The segments spell the steps: a name for each field, a decimal number for an index, a key as it is. */
  predicate Spells(steps: seq<Step>, segments: seq<string>) {
    if steps == [] then segments == []
    else
      |segments| > 0 && segments[0] == steps[0].field.name &&
      match steps[0]
      case FieldStep(_) => Spells(steps[1..], segments[1..])
      case IndexStep(_, i) =>
        |segments| > 1 && Strings.Atoi(segments[1]) == Some(i) && Spells(steps[1..], segments[2..])
      case KeyStep(_, k) => |segments| > 1 && segments[1] == k && Spells(steps[1..], segments[2..])
  }

  lemma {:induction false} ResolveSpells(schema: Schema, ty: string, segments: seq<string>)
    requires ValidSchema(schema) && ty in schema && Resolve(schema, ty, segments).Ok?
    ensures Spells(Resolve(schema, ty, segments).steps, segments)
    decreases |segments|
  {
    if segments != [] {
      FindFieldFinds(schema[ty], segments[0]);
      var f := FindField(schema[ty], segments[0]).value;
      var n := if |segments| > 1 && (f.shape.RepeatedField? || f.shape.MapField?) then 2 else 1;
      ResolveSpells(schema, NextType(ty, f.shape), segments[n..]);
      var steps := Resolve(schema, ty, segments).steps;
      assert steps[1..] == Resolve(schema, NextType(ty, f.shape), segments[n..]).steps;
    }
  }

  lemma {:induction false} SpelledResolves(schema: Schema, ty: string, steps: seq<Step>, segments: seq<string>)
    requires ValidSchema(schema) && ty in schema && Canonical(schema, ty, steps) && Spells(steps, segments)
    ensures Resolve(schema, ty, segments) == Ok(steps)
    decreases |steps|
  {
    if steps != [] {
      var f := steps[0].field;
      FindFieldFinds(schema[ty], f.name);
      NextTypeExists(schema, ty, f);
      var n := if steps[0].FieldStep? then 1 else 2;
      SpelledResolves(schema, NextType(ty, f.shape), steps[1..], segments[n..]);
      assert steps == [steps[0]] + steps[1..];
      assert |steps| == 1 ==> steps[1..] == [];
    }
  }

  /** A text compiles into some steps exactly when they follow the descriptor and the text spells them; so a text with a
      name that its descriptor does not have, or an index that is no number, does not compile. */
  lemma CompileIff(schema: Schema, ty: string, path: string, steps: seq<Step>)
    requires ValidSchema(schema) && ty in schema
    ensures CompileText(schema, ty, path) == Ok(steps) <==>
      Canonical(schema, ty, steps) && Spells(steps, Segments(path))
  {
    if CompileText(schema, ty, path) == Ok(steps) {
      ResolveSpells(schema, ty, Segments(path));
      CompileNormalizes(schema, ty, path);
    }
    if Canonical(schema, ty, steps) && Spells(steps, Segments(path)) {
      SpelledResolves(schema, ty, steps, Segments(path));
    }
  }

  /** The step after a message, a list of messages or a map of messages is a field of that type of message, and the step
      after anything else is a field of the same descriptor. */
  lemma {:induction false} StepsFollowDescriptors(schema: Schema, ty: string, steps: seq<Step>, k: nat)
    requires ValidSchema(schema) && ty in schema && Canonical(schema, ty, steps) && k + 1 < |steps|
    ensures var shape, next := steps[k].field.shape, steps[k + 1].field;
      match shape
      case SingularMessage(t) => t in schema && next in schema[t]
      case RepeatedField(Some(t)) => t in schema && next in schema[t]
      case MapField(Some(t)) => t in schema && next in schema[t]
      case _ => exists same <- schema :: steps[k].field in schema[same] && next in schema[same]
    decreases |steps|
  {
    var next := NextType(ty, steps[0].field.shape);
    NextTypeExists(schema, ty, steps[0].field);
    assert steps[1..][0] == steps[1];
    if k > 0 {
      StepsFollowDescriptors(schema, next, steps[1..], k - 1);
    } else {
      assert Canonical(schema, next, steps[1..]);
      assert steps[0].field in schema[ty];
    }
  }

  // ---------------------------------------------------------------- the calculator's texts

  ghost predicate PlainNames(schema: Schema) {
    forall ty <- schema :: forall f <- schema[ty] :: PlainSegment(f.name)
  }

  function FieldSteps(p: Path): (steps: seq<Step>)
    ensures |steps| == |p|
    ensures forall i :: 0 <= i < |p| ==> steps[i] == FieldStep(p[i])
  {
    seq(|p|, i requires 0 <= i < |p| => FieldStep(p[i]))
  }

  lemma {:induction false} FieldStepsAreCanonical(schema: Schema, ty: string, p: Path)
    requires PlainNames(schema) && ValidSchema(schema) && Typed(schema, ty, p)
    ensures Canonical(schema, ty, FieldSteps(p))
    decreases |p|
  {
    if p != [] {
      assert FieldSteps(p)[1..] == FieldSteps(p[1..]);
      if |p| > 1 { FieldStepsAreCanonical(schema, p[0].shape.messageType, p[1..]); }
    }
  }

  lemma {:induction false} PiecesAreNames(p: Path)
    ensures Pieces(FieldSteps(p)) == Names(p)
  {
    if p != [] {
      PiecesAreNames(p[1..]);
      assert FieldSteps(p)[1..] == FieldSteps(p[1..]);
      assert Names(p) == [p[0].name] + Names(p[1..]);
    }
  }

  lemma JoinNext(name: string, rest: seq<string>)
    requires rest != []
    ensures Strings.Join([name] + rest, '.') == name + "." + Strings.Join(rest, '.')
  {
    assert ([name] + rest)[1..] == rest;
  }

  /** The text that the calculator builds on its way down is the names joined by dots, after the prefix. */
  lemma {:induction false} TextJoinsNames(p: Path, prefix: string)
    requires forall i :: 0 <= i < |p| ==> p[i].name != ""
    ensures MaskCalculator.Text(prefix, p) ==
      if p == [] then prefix
      else if prefix == "" then Strings.Join(Names(p), '.') else prefix + "." + Strings.Join(Names(p), '.')
    decreases |p|
  {
    if p != [] {
      var name, rest := p[0].name, p[1..];
      var next := MaskCalculator.Extend(prefix, name);
      TextJoinsNames(rest, next);
      assert Names(p) == [name] + Names(rest);
      if |p| == 1 {
        assert Names(p) == [name] && Strings.Join([name], '.') == name;
      } else {
        JoinNext(name, Names(rest));
        DotsAssociate(prefix, name, Strings.Join(Names(rest), '.'));
      }
    }
  }

  lemma DotsAssociate(a: string, b: string, c: string)
    ensures a + "." + b + "." + c == a + "." + (b + "." + c)
  {
  }

  lemma {:induction false} TypedNamesArePlain(schema: Schema, ty: string, p: Path)
    requires PlainNames(schema) && Typed(schema, ty, p)
    ensures forall i :: 0 <= i < |p| ==> PlainSegment(p[i].name)
    decreases |p|
  {
    if |p| > 1 {
      TypedNamesArePlain(schema, p[0].shape.messageType, p[1..]);
      assert forall i :: 1 <= i < |p| ==> p[i] == p[1..][i - 1];
    }
  }

  /** Every text the calculator emits compiles, into field steps that name exactly the fields it walked. */
  lemma CalculatedPathsCompile(schema: Schema, ty: string, before: Message, after: Message, k: nat)
    requires ValidSchema(schema) && PlainNames(schema)
    requires WellFormed(schema, ty, before) && WellFormed(schema, ty, after)
    requires k < |MaskCalculator.Diff(schema, ty, before, after)|
    ensures var p := MaskCalculator.Diff(schema, ty, before, after)[k];
      CompileText(schema, ty, MaskCalculator.Text("", p)) == Ok(FieldSteps(p))
  {
    var mask := MaskCalculator.Diff(schema, ty, before, after);
    var p := mask[k];
    MaskCalculator.DiffIsWitnessed(schema, ty, before, after);
    assert p in mask && MaskCalculator.Witnessed(schema, ty, before, after, p);
    TypedNamesArePlain(schema, ty, p);
    TextJoinsNames(p, "");
    PiecesAreNames(p);
    FieldStepsAreCanonical(schema, ty, p);
    CompilePrint(schema, ty, FieldSteps(p));
  }
}
