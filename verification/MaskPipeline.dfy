/** From a change to its effect: the mask is calculated, its texts are compiled, and the paths are applied
    (internal/masks/masks_calculator.go, internal/servers/generic_server.go). */
module MaskPipeline {
  import opened Wrappers
  import opened Messages
  import opened MaskCalculator
  import opened MaskCompiler
  import opened MaskUpdate
  import opened MaskWalk
  import opened MaskMemory

  /** The fields of the steps. */
  function FieldsOf(steps: seq<Step>): (p: Path)
    ensures |p| == |steps|
  {
    seq(|steps|, i requires 0 <= i < |steps| => steps[i].field)
  }

  /** The text compiles into the steps. */
  ghost predicate CompilesTo(schema: Schema, ty: string, text: string, steps: seq<Step>) {
    ValidSchema(schema) && ty in schema && CompileText(schema, ty, text) == Ok(steps)
  }

  ghost predicate FailsWith(schema: Schema, ty: string, text: string, error: Error) {
    ValidSchema(schema) && ty in schema && CompileText(schema, ty, text) == Err(error)
  }

  ghost predicate AllCompile(schema: Schema, ty: string, texts: seq<string>, steps: seq<seq<Step>>) {
    |texts| == |steps| && forall k :: 0 <= k < |texts| ==> CompilesTo(schema, ty, texts[k], steps[k])
  }

  /** The first text that does not compile fails with the error. */
  ghost predicate FirstFailure(schema: Schema, ty: string, texts: seq<string>, error: Error) {
    exists k, before :: 0 <= k < |texts| && AllCompile(schema, ty, texts[..k], before) &&
                        FailsWith(schema, ty, texts[k], error)
  }

  lemma AllCompileNext(schema: Schema, ty: string, texts: seq<string>, steps: seq<seq<Step>>, more: seq<Step>, i: nat)
    requires i < |texts| && AllCompile(schema, ty, texts[..i], steps) && CompilesTo(schema, ty, texts[i], more)
    ensures AllCompile(schema, ty, texts[..i + 1], steps + [more])
  {
  }

  lemma NoneFails(schema: Schema, ty: string, texts: seq<string>, steps: seq<seq<Step>>, error: Error)
    requires AllCompile(schema, ty, texts, steps)
    ensures !FirstFailure(schema, ty, texts, error)
  {
    forall k | 0 <= k < |texts| ensures !FailsWith(schema, ty, texts[k], error) {
      assert CompilesTo(schema, ty, texts[k], steps[k]);
    }
  }

  datatype Compilation = Paths(steps: seq<seq<Step>>) | Invalid(error: Error)

  /** The server, with the paths that it compiled before. */
  class Server {
    const schema: Schema
    const ty: string
    var pathCache: map<string, seq<Step>>

    constructor (schema: Schema, ty: string)
      requires ValidSchema(schema) && ty in schema
      ensures Valid() && this.schema == schema && this.ty == ty
    {
      this.schema, this.ty, pathCache := schema, ty, map[];
    }

    ghost predicate Valid()
      reads this
    {
      && ValidSchema(schema) && ty in schema
      && forall text <- pathCache :: CompilesTo(schema, ty, text, pathCache[text])
    }

    /** The cache makes no difference. */
    method CompilePath(text: string) returns (result: MaskCompiler.Result)
      requires Valid()
      modifies this
      ensures Valid()
      ensures match result
        case Ok(steps) => CompilesTo(schema, ty, text, steps)
        case Err(error) => FailsWith(schema, ty, text, error)
    {
      if text in pathCache { return Ok(pathCache[text]); }
      result := Compile(schema, ty, text);
      if result.Ok? { pathCache := pathCache[text := result.steps]; }
    }

    /** All the texts compile, or the error is that of the first one that does not. */
    method CompilePaths(texts: seq<string>) returns (result: Compilation)
      requires Valid()
      modifies this
      ensures Valid()
      ensures match result
        case Paths(steps) => AllCompile(schema, ty, texts, steps)
        case Invalid(error) => FirstFailure(schema, ty, texts, error)
    {
      var steps: seq<seq<Step>> := [];
      for i := 0 to |texts|
        invariant Valid() && AllCompile(schema, ty, texts[..i], steps)
      {
        var compiled := CompilePath(texts[i]);
        if compiled.Err? { return Invalid(compiled.error); }
        AllCompileNext(schema, ty, texts, steps, compiled.steps, i);
        steps := steps + [compiled.steps];
      }
      assert texts[..|texts|] == texts;
      return Paths(steps);
    }

    /** The paths that the server gets from the mask of a change are exactly those that the calculator walked. */
    method PathsOfChange(before: Message, after: Message) returns (paths: seq<Path>)
      requires Valid() && PlainNames(schema) && WellFormed(schema, ty, before) && WellFormed(schema, ty, after)
      modifies this
      ensures Valid() && paths == Diff(schema, ty, before, after)
    {
      var texts := Calculate(schema, ty, before, after);
      var compilation := CompilePaths(texts);
      ghost var mask := Diff(schema, ty, before, after);
      CalculatedMaskCompiles(schema, ty, before, after);
      forall error ensures !FirstFailure(schema, ty, texts, error) {
        NoneFails(schema, ty, texts, MaskSteps(mask), error);
      }
      assert compilation.Paths?;
      CompiledIsMask(schema, ty, texts, compilation.steps, mask);
      return PathsOf(compilation.steps);
    }

    /** A client changes its copy of an object and sends the changed copy with the calculated mask.  The update
        succeeds: it puts the change, and nothing else, on whatever the object has become in the meantime; and if
        it has not changed, it becomes exactly what the client has. */
    method SendChange(before: Message, after: Message, current: Node, request: Node,
                      ghost objects: set<Node>, ghost lent: set<Node>)
      returns (result: Option<Node>)
      requires Valid() && PlainNames(schema)
      requires WellFormed(schema, ty, before) && WellFormed(schema, ty, after) && WellFormed(schema, ty, current.model)
      requires Whole(lent, request) && request.model == after
      requires current in objects && forall n <- objects :: Denotes(n, n.model, objects)
      modifies this, lent
      ensures Valid() && result.Some?
      ensures result.value.model == Patch(old(current.model), Diff(schema, ty, before, after), after)
      ensures old(current.model) == before ==> result.value.model == after
      ensures forall n <- objects + lent :: n.fields == old(n.fields) && n.model == old(n.model)
    {
      var paths := PathsOfChange(before, after);
      MaskApplies(schema, ty, before, after, current.model);
      result := Update(schema, ty, current, request, Some(paths), objects, lent);
    }
  }

  function PathsOf(steps: seq<seq<Step>>): (paths: seq<Path>)
    ensures |paths| == |steps| && forall k :: 0 <= k < |steps| ==> paths[k] == FieldsOf(steps[k])
  {
    seq(|steps|, k requires 0 <= k < |steps| => FieldsOf(steps[k]))
  }

  ghost function MaskSteps(mask: seq<Path>): (steps: seq<seq<Step>>)
    ensures |steps| == |mask| && forall k :: 0 <= k < |mask| ==> steps[k] == FieldSteps(mask[k])
  {
    seq(|mask|, k requires 0 <= k < |mask| => FieldSteps(mask[k]))
  }

  lemma CalculatedMaskCompiles(schema: Schema, ty: string, before: Message, after: Message)
    requires ValidSchema(schema) && PlainNames(schema)
    requires WellFormed(schema, ty, before) && WellFormed(schema, ty, after)
    ensures var mask := Diff(schema, ty, before, after);
      AllCompile(schema, ty, Texts("", mask), MaskSteps(mask))
  {
    var mask := Diff(schema, ty, before, after);
    forall k | 0 <= k < |mask| ensures CompilesTo(schema, ty, Texts("", mask)[k], FieldSteps(mask[k])) {
      CalculatedPathsCompile(schema, ty, before, after, k);
    }
  }

  lemma CompiledIsMask(schema: Schema, ty: string, texts: seq<string>, steps: seq<seq<Step>>, mask: seq<Path>)
    requires AllCompile(schema, ty, texts, steps) && AllCompile(schema, ty, texts, MaskSteps(mask))
    ensures PathsOf(steps) == mask
  {
    forall k | 0 <= k < |texts| ensures FieldsOf(steps[k]) == mask[k] {
      assert CompilesTo(schema, ty, texts[k], steps[k]) && CompilesTo(schema, ty, texts[k], MaskSteps(mask)[k]);
    }
  }

  lemma MaskApplies(schema: Schema, ty: string, before: Message, after: Message, current: Message)
    requires ValidSchema(schema) && PlainNames(schema)
    requires WellFormed(schema, ty, before) && WellFormed(schema, ty, after) && WellFormed(schema, ty, current)
    ensures var mask := Diff(schema, ty, before, after);
      && (forall k :: 0 <= k < |mask| ==> Compiled(schema, ty, mask[k]))
      && Applicable(current, mask, after) == |mask|
      && (current == before ==> Patch(current, mask, after) == after)
  {
    var mask := Diff(schema, ty, before, after);
    DiffIsValidMask(schema, ty, before, after);
    forall k | 0 <= k < |mask| ensures Compiled(schema, ty, mask[k]) {
      FieldStepsAreCanonical(schema, ty, mask[k]);
    }
    TypedMaskApplies(schema, ty, current, mask, after);
    RoundTrip(schema, ty, before, after);
  }
}
