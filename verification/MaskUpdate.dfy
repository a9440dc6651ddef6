/** What an update with a field mask does to an object that others are changing too: the promise that masks allow
    "precise updates that don't overwrite concurrent changes" (internal/masks/masks_calculator.go). */
module MaskUpdate {
  import opened Messages
  import opened MaskCalculator

  /** A mask a server can apply: compiled non-empty paths of one descriptor. */
  ghost predicate ValidMask(schema: Schema, ty: string, mask: seq<Path>) {
    forall i :: 0 <= i < |mask| ==> mask[i] != [] && Typed(schema, ty, mask[i])
  }

  /** The path parts company with every path of the mask. */
  predicate Outside(mask: seq<Path>, q: Path) {
    forall i :: 0 <= i < |mask| ==> Diverge(mask[i], q)
  }

  /** What a path of the descriptor reads is present and well formed. */
  lemma {:induction false} ReadIsPresent(schema: Schema, ty: string, m: Message, p: Path)
    requires WellFormed(schema, ty, m) && p != [] && Typed(schema, ty, p) && Read(m, p).Some?
    ensures Present(p[|p| - 1].shape, Read(m, p).value)
    ensures WellFormedValue(schema, p[|p| - 1].shape, Read(m, p).value)
    decreases |p|
  {
    ReadUnfold(m, p);
    var v := m.fields[p[0].name];
    if |p| == 1 {
      assert p[1..] == [];
    } else {
      ReadIsPresent(schema, p[0].shape.messageType, v.msg, p[1..]);
      assert p[1..][|p| - 2] == p[|p| - 1];
    }
  }

  lemma EditStoresRequest(schema: Schema, ty: string, request: Message, p: Path)
    requires WellFormed(schema, ty, request) && p != [] && Typed(schema, ty, p)
    ensures Stored(p, EditFor(request, p)) == Read(request, p)
  {
    if Read(request, p).Some? { ReadIsPresent(schema, ty, request, p); }
  }

  /** Whatever is outside the mask reads as before the update. */
  lemma {:induction false} OutsideIsUntouched(current: Message, mask: seq<Path>, request: Message, q: Path)
    requires Outside(mask, q)
    ensures Read(Patch(current, mask, request), q) == Read(current, q)
    decreases |mask|
  {
    if mask != [] {
      var init, p := mask[..|mask| - 1], mask[|mask| - 1];
      OutsideIsUntouched(current, init, request, q);
      EditFrames(Patch(current, init, request), p, EditFor(request, p), q);
    }
  }

  /** Every path of the mask reads as in the request after the update, whatever the updated object was. */
  lemma {:induction false} InsideReadsAsRequested(schema: Schema, ty: string, current: Message, mask: seq<Path>,
                                                  request: Message, k: nat)
    requires WellFormed(schema, ty, request) && ValidMask(schema, ty, mask) && Antichain(mask) && k < |mask|
    ensures Read(Patch(current, mask, request), mask[k]) == Read(request, mask[k])
    decreases |mask|
  {
    var init, p := mask[..|mask| - 1], mask[|mask| - 1];
    var m := Patch(current, init, request);
    if k == |mask| - 1 {
      ReadAfterEdit(m, p, EditFor(request, p));
      EditStoresRequest(schema, ty, request, p);
    } else {
      InsideReadsAsRequested(schema, ty, current, init, request, k);
      DivergeSymmetric(mask[k], p);
      EditFrames(m, p, EditFor(request, p), mask[k]);
    }
  }

  /** The mask computed from a change, applied to any third object: the changed paths read as in `after`, and everything
      outside the mask keeps what the object had. */
  lemma NonInterference(schema: Schema, ty: string, before: Message, after: Message, current: Message)
    requires ValidSchema(schema) && WellFormed(schema, ty, before) && WellFormed(schema, ty, after)
    ensures var mask := Diff(schema, ty, before, after);
      var result := Patch(current, mask, after);
      && (forall k :: 0 <= k < |mask| ==> Read(result, mask[k]) == Read(after, mask[k]))
      && (forall q :: Outside(mask, q) ==> Read(result, q) == Read(current, q))
  {
    var mask := Diff(schema, ty, before, after);
    DiffIsAntichain(schema, ty, before, after);
    DiffIsValidMask(schema, ty, before, after);
    forall k | 0 <= k < |mask|
      ensures Read(Patch(current, mask, after), mask[k]) == Read(after, mask[k])
    {
      InsideReadsAsRequested(schema, ty, current, mask, after, k);
    }
    forall q | Outside(mask, q)
      ensures Read(Patch(current, mask, after), q) == Read(current, q)
    {
      OutsideIsUntouched(current, mask, after, q);
    }
  }

  lemma DiffIsValidMask(schema: Schema, ty: string, before: Message, after: Message)
    requires ValidSchema(schema) && WellFormed(schema, ty, before) && WellFormed(schema, ty, after)
    ensures ValidMask(schema, ty, Diff(schema, ty, before, after))
  {
    var mask := Diff(schema, ty, before, after);
    DiffIsWitnessed(schema, ty, before, after);
    forall k | 0 <= k < |mask| ensures mask[k] != [] && Typed(schema, ty, mask[k]) {
      assert mask[k] in mask;
      assert Witnessed(schema, ty, before, after, mask[k]);
    }
  }

  /** The mask misses no change: a path that reads differently on both sides meets some path of the mask. */
  lemma DiffIsComplete(schema: Schema, ty: string, before: Message, after: Message, q: Path)
    requires ValidSchema(schema) && WellFormed(schema, ty, before) && WellFormed(schema, ty, after)
    requires Read(before, q) != Read(after, q)
    ensures !Outside(Diff(schema, ty, before, after), q)
  {
    if Outside(Diff(schema, ty, before, after), q) {
      RoundTrip(schema, ty, before, after);
      OutsideIsUntouched(before, Diff(schema, ty, before, after), after, q);
    }
  }

  // ---------------------------------------------------------------- the mask is as fine as the messages

  /** The path reads a message on both sides. */
  predicate BothMessages(before: Message, after: Message, p: Path) {
    var b, a := Read(before, p), Read(after, p);
    b.Some? && b.value.Sub? && a.Some? && a.value.Sub?
  }

  /** The calculator goes into messages that both sides have: it never emits the path of one. */
  lemma {:induction false} DiffIsFinest(schema: Schema, ty: string, before: Message, after: Message, p: Path)
    requires ValidSchema(schema) && WellFormed(schema, ty, before) && WellFormed(schema, ty, after)
    requires p in Diff(schema, ty, before, after)
    ensures !BothMessages(before, after, p)
    decreases before
  {
    var f := DiffPathField(schema, schema[ty], before, after, p);
    var b, a := Slot(before, f.name), Slot(after, f.name);
    ReadUnfold(before, p);
    ReadUnfold(after, p);
    if f.shape.SingularMessage? && b.Some? && b.value.Sub? && a.Some? && a.value.Sub? {
      var below := Diff(schema, f.shape.messageType, b.value.msg, a.value.msg);
      assert p[1..] in below;
      DiffIsFinest(schema, f.shape.messageType, b.value.msg, a.value.msg, p[1..]);
    } else {
      assert p == [f] && p[1..] == [];
    }
  }

  /** Every message above the end of the path is there on both sides. */
  predicate Shared(before: Message, after: Message, q: Path) {
    |q| == 1 ||
    (|q| > 1 && q[0].name in before.fields && before.fields[q[0].name].Sub? &&
     q[0].name in after.fields && after.fields[q[0].name].Sub? &&
     Shared(before.fields[q[0].name].msg, after.fields[q[0].name].msg, q[1..]))
  }

  lemma {:induction false} MeetsMeansDiffers(before: Message, after: Message, p: Path, q: Path)
    requires p != [] && !Diverge(p, q) && Shared(before, after, q)
    requires Read(before, p) != Read(after, p) && !BothMessages(before, after, p)
    ensures Read(before, q) != Read(after, q)
    decreases |q|
  {
    ReadUnfold(before, p);
    ReadUnfold(after, p);
    ReadUnfold(before, q);
    ReadUnfold(after, q);
    assert |p| == 1 ==> p[1..] == [];
    assert |q| == 1 ==> q[1..] == [];
    if |p| > 1 && |q| > 1 {
      MeetsMeansDiffers(before.fields[q[0].name].msg, after.fields[q[0].name].msg, p[1..], q[1..]);
    }
  }

  /** Below messages that both sides have, a path is outside the mask exactly when it reads the same on both sides: a
      change next to another one is left alone. */
  lemma DiffIsExact(schema: Schema, ty: string, before: Message, after: Message, q: Path)
    requires ValidSchema(schema) && WellFormed(schema, ty, before) && WellFormed(schema, ty, after)
    requires Shared(before, after, q)
    ensures Outside(Diff(schema, ty, before, after), q) <==> Read(before, q) == Read(after, q)
  {
    var mask := Diff(schema, ty, before, after);
    if Read(before, q) != Read(after, q) {
      DiffIsComplete(schema, ty, before, after, q);
    } else {
      DiffIsWitnessed(schema, ty, before, after);
      forall i | 0 <= i < |mask| ensures Diverge(mask[i], q) {
        assert mask[i] in mask && Witnessed(schema, ty, before, after, mask[i]);
        DiffIsFinest(schema, ty, before, after, mask[i]);
        if !Diverge(mask[i], q) { MeetsMeansDiffers(before, after, mask[i], q); }
      }
    }
  }

  /** So an update leaves on the current object whatever reads the same on both sides of the change, however close
      to the change it is. */
  lemma NeighboursAreKept(schema: Schema, ty: string, before: Message, after: Message, current: Message, q: Path)
    requires ValidSchema(schema) && WellFormed(schema, ty, before) && WellFormed(schema, ty, after)
    requires Shared(before, after, q) && Read(before, q) == Read(after, q)
    ensures Read(Patch(current, Diff(schema, ty, before, after), after), q) == Read(current, q)
  {
    DiffIsExact(schema, ty, before, after, q);
    OutsideIsUntouched(current, Diff(schema, ty, before, after), after, q);
  }

  lemma EmptyMaskIffEqual(schema: Schema, ty: string, before: Message, after: Message)
    requires ValidSchema(schema) && WellFormed(schema, ty, before) && WellFormed(schema, ty, after)
    ensures Diff(schema, ty, before, after) == [] <==> before == after
  {
    var mask := Diff(schema, ty, before, after);
    RoundTrip(schema, ty, before, after);
    if mask != [] {
      DiffIsWitnessed(schema, ty, before, after);
      assert Witnessed(schema, ty, before, after, mask[0]);
    }
  }

  // ---------------------------------------------------------------- concurrent updates

  /** No path of one mask meets a path of the other. */
  predicate Disjoint(mask: seq<Path>, other: seq<Path>) {
    forall i :: 0 <= i < |mask| ==> Outside(other, mask[i])
  }

  lemma {:induction false} EditCommutesWithPatch(m: Message, p: Path, e: Edit, mask: seq<Path>, request: Message)
    requires Outside(mask, p)
    ensures Patch(Apply(m, p, e), mask, request) == Apply(Patch(m, mask, request), p, e)
    decreases |mask|
  {
    if mask != [] {
      var init, q := mask[..|mask| - 1], mask[|mask| - 1];
      EditCommutesWithPatch(m, p, e, init, request);
      EditsCommute(Patch(m, init, request), q, EditFor(request, q), p, e);
    }
  }

  /** Two clients that change different things get the same object in whichever order the server applies them. */
  lemma {:induction false} ConcurrentUpdatesCommute(m: Message, mask: seq<Path>, request: Message,
                                                    other: seq<Path>, otherRequest: Message)
    requires Disjoint(mask, other)
    ensures Patch(Patch(m, mask, request), other, otherRequest) == Patch(Patch(m, other, otherRequest), mask, request)
    decreases |mask|
  {
    if mask != [] {
      var init, p := mask[..|mask| - 1], mask[|mask| - 1];
      ConcurrentUpdatesCommute(m, init, request, other, otherRequest);
      EditCommutesWithPatch(Patch(m, init, request), p, EditFor(request, p), other, otherRequest);
    }
  }

  /** Neither of two disjoint changes made from the same base is lost, in whichever order they arrive. */
  lemma NoLostUpdate(schema: Schema, ty: string, base: Message, mine: Message, theirs: Message)
    requires ValidSchema(schema)
    requires WellFormed(schema, ty, base) && WellFormed(schema, ty, mine) && WellFormed(schema, ty, theirs)
    requires Disjoint(Diff(schema, ty, base, mine), Diff(schema, ty, base, theirs))
    ensures var myMask, theirMask := Diff(schema, ty, base, mine), Diff(schema, ty, base, theirs);
      var merged := Patch(theirs, myMask, mine);
      && merged == Patch(mine, theirMask, theirs)
      && (forall k :: 0 <= k < |myMask| ==> Read(merged, myMask[k]) == Read(mine, myMask[k]))
      && (forall k :: 0 <= k < |theirMask| ==> Read(merged, theirMask[k]) == Read(theirs, theirMask[k]))
  {
    var myMask, theirMask := Diff(schema, ty, base, mine), Diff(schema, ty, base, theirs);
    RoundTrip(schema, ty, base, mine);
    RoundTrip(schema, ty, base, theirs);
    ConcurrentUpdatesCommute(base, myMask, mine, theirMask, theirs);
    NonInterference(schema, ty, base, mine, theirs);
    NonInterference(schema, ty, base, theirs, mine);
  }

  // ---------------------------------------------------------------- updates keep objects well formed

  lemma {:induction false} EditKeepsWellFormed(schema: Schema, ty: string, m: Message, p: Path, e: Edit)
    requires ValidSchema(schema) && WellFormed(schema, ty, m) && p != [] && Typed(schema, ty, p)
    requires e.Put? ==> WellFormedValue(schema, p[|p| - 1].shape, e.value)
    ensures WellFormed(schema, ty, Apply(m, p, e))
    decreases |p|
  {
    var slot := Slot(m, p[0].name);
    if |p| > 1 {
      assert p[1..][|p| - 2] == p[|p| - 1];
      EditKeepsWellFormed(schema, p[0].shape.messageType, ChildOrNew(slot), p[1..], e);
    }
    var r, fs := EditSlot(slot, p, e), schema[ty];
    assert r.Some? ==> Present(p[0].shape, r.value) && WellFormedValue(schema, p[0].shape, r.value);
    forall f | f in fs && f.name in Apply(m, p, e).fields
      ensures Present(f.shape, Apply(m, p, e).fields[f.name])
      ensures WellFormedValue(schema, f.shape, Apply(m, p, e).fields[f.name])
    {
      if f.name == p[0].name { assert f == p[0]; }
    }
  }

  lemma {:induction false} PatchKeepsWellFormed(schema: Schema, ty: string, current: Message, mask: seq<Path>,
                                                request: Message)
    requires ValidSchema(schema) && WellFormed(schema, ty, current) && WellFormed(schema, ty, request)
    requires ValidMask(schema, ty, mask)
    ensures WellFormed(schema, ty, Patch(current, mask, request))
    decreases |mask|
  {
    if mask != [] {
      var init, p := mask[..|mask| - 1], mask[|mask| - 1];
      PatchKeepsWellFormed(schema, ty, current, init, request);
      if Read(request, p).Some? { ReadIsPresent(schema, ty, request, p); }
      EditKeepsWellFormed(schema, ty, Patch(current, init, request), p, EditFor(request, p));
    }
  }
}
