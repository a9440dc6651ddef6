/** `Path.Get`, `Path.Set` and `Path.Clear` as they work on mutable, possibly shared messages
    (internal/masks/mask_path.go), and the update loop of the server that uses them
    (internal/servers/generic_server.go).

    Setting a message field stores a reference.  So after the loop the updated object shares messages with the request,
    and later paths of the mask may write through to them.  The theorem is that this never shows. */
module MaskMemory {
  import opened Wrappers
  import opened Messages
  import opened MaskCalculator
  import opened MaskUpdate
  import opened MaskWalk

  /** What a field stores: a scalar, list or map by value, or a reference to a message. */
  datatype Cell = Plain(value: Value) | Child(node: Node)

  class Node {
    var fields: map<string, Cell>
    /** The names that lead to this message from the top. */
    ghost const at: seq<string>
    /** The tree this message stands for. */
    ghost var model: Message

    constructor (ghost at: seq<string>, fields: map<string, Cell>, ghost model: Message)
      ensures this.at == at && this.fields == fields && this.model == model
    {
      this.at := at;
      this.fields := fields;
      this.model := model;
    }
  }

  // ---------------------------------------------------------------- what memory stands for

  ghost function ValueOf(slot: Cell): Value
    reads (if slot.Child? then {slot.node} else {})`model
  {
    if slot.Plain? then slot.value else Sub(slot.node.model)
  }

  /** The slot is a plain value, or a reference to a message of `nodes` that belongs there. */
  ghost predicate Placed(slot: Cell, at: seq<string>, nodes: set<Node>) {
    match slot
    case Plain(v) => !v.Sub?
    case Child(c) => c in nodes && c.at == at
  }

  /** The fields, at that place, stand for the given tree. */
  ghost predicate FieldsDenote(fields: map<string, Cell>, at: seq<string>, m: Message, nodes: set<Node>)
    reads nodes`model
  {
    && fields.Keys == m.fields.Keys
    && forall name <- fields :: Placed(fields[name], at + [name], nodes) && ValueOf(fields[name]) == m.fields[name]
  }

  ghost predicate Denotes(n: Node, m: Message, nodes: set<Node>)
    reads n`fields, nodes`model
  {
    FieldsDenote(n.fields, n.at, m, nodes)
  }

  ghost predicate OnePerPlace(nodes: set<Node>) {
    forall a <- nodes, b <- nodes :: a.at == b.at ==> a == b
  }

  /** Messages of an object that may refer to messages lent by another one.  While a walk is at `cur`, that message
      still stands for `m`. */
  ghost predicate Walking(own: set<Node>, lent: set<Node>, cur: Node, m: Message)
    reads own, lent
  {
    && own !! lent
    && OnePerPlace(own)
    && (forall n <- lent :: Denotes(n, n.model, lent))
    && (forall n <- own :: n != cur ==> Denotes(n, n.model, own + lent))
    && (cur in own ==> Denotes(cur, m, own + lent))
  }

  ghost predicate Tree(own: set<Node>, lent: set<Node>, root: Node)
    reads own, lent
  {
    root in own && root.at == [] && Walking(own, lent, root, root.model)
  }

  // ---------------------------------------------------------------- edits that change nothing

  /** The edit changes nothing. */
  predicate Idle(m: Message, p: Path, e: Edit) {
    match e
    case Put(v) => Read(m, p) == Some(v) && p != [] && Present(p[|p| - 1].shape, v)
    case Del => Read(m, p).None?
  }

  lemma {:induction false} IdleChangesNothing(m: Message, p: Path, e: Edit)
    requires Idle(m, p, e)
    ensures Apply(m, p, e) == m
    decreases |p|
  {
    if p != [] {
      ReadUnfold(m, p);
      SetSlotAbsorbs(m, p[0].name, None, None);
      var slot := Slot(m, p[0].name);
      if |p| == 1 {
        assert p[1..] == [];
      } else if slot.Some? && slot.value.Sub? {
        assert p[1..][|p| - 2] == p[|p| - 1];
        IdleChangesNothing(slot.value.msg, p[1..], e);
      }
    }
  }

  lemma IdleBelow(m: Message, p: Path, e: Edit)
    requires Idle(m, p, e) && |p| > 1 && p[0].name in m.fields && m.fields[p[0].name].Sub?
    ensures Idle(m.fields[p[0].name].msg, p[1..], e)
  {
    ReadUnfold(m, p);
    assert p[1..][|p| - 2] == p[|p| - 1];
  }

  // ---------------------------------------------------------------- one step of a walk

  /** The walk is at `cur`, which stands for `m` and is bound to become what the edit makes of it.  In lent messages the
      edit changes nothing. */
  ghost predicate InWalk(own: set<Node>, lent: set<Node>, cur: Node, m: Message, rest: Path, e: Edit)
    reads own, lent
  {
    && cur in own + lent
    && Walking(own, lent, cur, m)
    && cur.model == Apply(m, rest, e)
    && (cur in lent ==> cur.model == m && Idle(m, rest, e))
  }

  /** In an object, a message is referred to from one place only: nothing else depends on it. */
  lemma OneParent(own: set<Node>, lent: set<Node>, cur: Node, m: Message, name: string)
    requires Walking(own, lent, cur, m) && cur in own && name in cur.fields && cur.fields[name].Child?
    ensures var others := own + lent - {cur.fields[name].node};
      && (forall n <- own :: n != cur ==> Denotes(n, n.model, others))
      && (forall other <- cur.fields :: other != name ==> Placed(cur.fields[other], cur.at + [other], others))
  {
    forall n, other | n in own && other in n.fields && n.fields[other] == cur.fields[name]
      ensures n == cur && other == name
    {
      SameParent(n.at, other, cur.at, name);
    }
  }

  lemma DenotesMore(fields: map<string, Cell>, at: seq<string>, m: Message, few: set<Node>, many: set<Node>)
    requires FieldsDenote(fields, at, m, few) && few <= many
    ensures FieldsDenote(fields, at, m, many)
  {
  }

  lemma SameParent(a: seq<string>, x: string, b: seq<string>, y: string)
    requires a + [x] == b + [y]
    ensures a == b && x == y
  {
    assert a == (a + [x])[..|a|] && b == (b + [y])[..|b|];
    assert x == (a + [x])[|a|] && y == (b + [y])[|b|];
  }

  lemma ApplyBelow(m: Message, p: Path, e: Edit)
    requires |p| > 1 && p[0].name in m.fields && m.fields[p[0].name].Sub?
    ensures Apply(m, p, e).fields ==
      m.fields[p[0].name := Sub(Apply(m.fields[p[0].name].msg, p[1..], e))]
  {
  }

  lemma ApplyNew(m: Message, p: Path, e: Edit)
    requires |p| > 1 && p[0].name !in m.fields && e.Put?
    ensures Apply(m, p, e).fields == m.fields[p[0].name := Sub(Apply(EMPTY, p[1..], e))]
  {
  }

  lemma ApplyLast(m: Message, f: Field, e: Edit)
    ensures Apply(m, [f], e) == SetSlot(m, f.name, Stored([f], e))
  {
  }

  method Enter(cur: Node, name: string, ghost own: set<Node>, ghost lent: set<Node>, ghost m: Message,
               ghost rest: Path, ghost e: Edit)
    returns (child: Node)
    requires InWalk(own, lent, cur, m, rest, e)
    requires |rest| > 1 && rest[0].name == name && name in cur.fields && cur.fields[name].Child?
    requires cur.fields[name].node in lent && cur in own ==> Idle(cur.fields[name].node.model, rest[1..], e)
    modifies own`model
    ensures old(cur.fields[name]) == Child(child) && child.at == cur.at + [name]
    ensures InWalk(own, lent, child, old(child.model), rest[1..], e)
    ensures forall n <- own :: n != child ==> n.model == old(n.model)
  {
    child := cur.fields[name].node;
    ApplyBelow(m, rest, e);
    if child in lent {
      if cur in lent { IdleBelow(m, rest, e); }
      IdleChangesNothing(child.model, rest[1..], e);
    } else {
      OneParent(own, lent, cur, m, name);
      ghost var was, others := child.model, own + lent - {child};
      child.model := Apply(child.model, rest[1..], e);
      DenotesMore(child.fields, child.at, was, others, own + lent);
      forall n | n in own && n != cur && n != child ensures Denotes(n, n.model, own + lent) {
        assert Denotes(n, n.model, others);
        DenotesMore(n.fields, n.at, n.model, others, own + lent);
      }
      assert Denotes(cur, cur.model, own + lent);
    }
  }

  /** The messages that are not at or below a place. */
  ghost function Pruned(own: set<Node>, place: seq<string>): set<Node> {
    set n <- own | !(place <= n.at)
  }

  lemma PrefixOfLonger(place: seq<string>, at: seq<string>, name: string)
    requires place <= at + [name]
    ensures place <= at || place == at + [name]
  {
    assert |place| <= |at| ==> place == (at + [name])[..|place|] == at[..|place|];
  }

  /** Only the message above a place refers to messages at or below it. */
  lemma PrunedIsClosed(own: set<Node>, lent: set<Node>, cur: Node, m: Message, name: string)
    requires Walking(own, lent, cur, m) && cur in own
    ensures var rest := Pruned(own, cur.at + [name]) + lent;
      && (forall n <- own :: n in rest && n != cur ==> Denotes(n, n.model, rest))
      && (forall other <- cur.fields :: other != name ==> Placed(cur.fields[other], cur.at + [other], rest))
  {
    var place := cur.at + [name];
    forall n, other | n in own && !(place <= n.at) && other in n.fields && place <= n.at + [other]
      ensures n == cur && other == name
    {
      PrefixOfLonger(place, n.at, other);
      SameParent(n.at, other, cur.at, name);
    }
  }

  /** `NewField` and `Set`: an empty message is created and stored where there was none. */
  method Create(cur: Node, name: string, ghost own: set<Node>, ghost lent: set<Node>, ghost m: Message,
                ghost rest: Path, ghost e: Edit)
    returns (child: Node, ghost rest2: set<Node>)
    requires InWalk(own, lent, cur, m, rest, e) && cur in own && e.Put?
    requires |rest| > 1 && rest[0].name == name && rest[0].shape.SingularMessage? && name !in cur.fields
    modifies cur`fields
    ensures fresh(child) && child.at == cur.at + [name]
    ensures rest2 == Pruned(own, child.at) + {child}
    ensures InWalk(rest2, lent, child, EMPTY, rest[1..], e)
  {
    child := new Node(cur.at + [name], map[], Apply(EMPTY, rest[1..], e));
    rest2 := Pruned(own, child.at) + {child};
    Attach(cur, name, child, own, lent, m, rest, e);
    cur.fields := cur.fields[name := Child(child)];
    assert Denotes(child, EMPTY, rest2 + lent);
  }

  lemma Attach(cur: Node, name: string, child: Node, own: set<Node>, lent: set<Node>, m: Message, rest: Path, e: Edit)
    requires InWalk(own, lent, cur, m, rest, e) && cur in own && e.Put?
    requires |rest| > 1 && rest[0].name == name && name !in cur.fields
    requires child.at == cur.at + [name] && child.model == Apply(EMPTY, rest[1..], e)
    ensures var nodes := Pruned(own, child.at) + {child} + lent;
      && FieldsDenote(cur.fields[name := Child(child)], cur.at, cur.model, nodes)
      && forall n <- Pruned(own, child.at) :: n != cur ==> Denotes(n, n.model, nodes)
  {
    var kept := Pruned(own, child.at);
    PrunedIsClosed(own, lent, cur, m, name);
    forall n | n in kept && n != cur ensures Denotes(n, n.model, kept + {child} + lent) {
      DenotesMore(n.fields, n.at, n.model, kept + lent, kept + {child} + lent);
    }
    ApplyNew(m, rest, e);
  }

  /** The last step: the field is stored, or removed when there is nothing to store. */
  method Store(cur: Node, f: Field, cell: Option<Cell>, ghost own: set<Node>, ghost lent: set<Node>, ghost m: Message,
               ghost e: Edit)
    returns (ghost rest: set<Node>)
    requires InWalk(own, lent, cur, m, [f], e)
    requires cell.Some? ==> Placed(cell.value, cur.at + [f.name], lent)
    requires Stored([f], e) == (if cell.Some? then Some(ValueOf(cell.value)) else None)
    requires cur in lent ==> cell == (if f.name in cur.fields then Some(cur.fields[f.name]) else None)
    modifies cur`fields
    ensures rest == if cur in lent then own else Pruned(own, cur.at + [f.name])
    ensures cur in lent ==> cur.fields == old(cur.fields)
    ensures Walking(rest, lent, cur, cur.model)
  {
    rest := if cur in lent then own else Pruned(own, cur.at + [f.name]);
    if cur in own { PrunedIsClosed(own, lent, cur, m, f.name); }
    ApplyLast(m, f, e);
    var fields := if cell.Some? then cur.fields[f.name := cell.value] else cur.fields - {f.name};
    if cur in lent {
      assert fields == cur.fields;
    } else {
      assert FieldsDenote(fields, cur.at, cur.model, rest + lent);
    }
    cur.fields := fields;
  }

  // ---------------------------------------------------------------- the walks

  /** On every lent message that lies along the path, the edit changes nothing. */
  ghost predicate Idles(lent: set<Node>, p: Path, e: Edit)
    reads lent`model
  {
    forall n <- lent, i | 0 <= i < |p| && n.at == Names(p)[..i] :: Idle(n.model, p[i..], e)
  }

  /** A lent message at the end of the path already stores exactly this. */
  ghost predicate Stores(lent: set<Node>, p: Path, cell: Cell)
    requires p != []
    reads lent`fields
  {
    var names, last := Names(p), p[|p| - 1].name;
    forall n <- lent :: n.at == names[..|p| - 1] ==> last in n.fields && n.fields[last] == cell
  }

  predicate CellPresent(shape: Shape, cell: Cell) {
    if cell.Child? then shape.SingularMessage? else Present(shape, cell.value)
  }

  /** The walk starts at the top, which nothing refers to. */
  ghost method Begin(root: Node, p: Path, e: Edit, own: set<Node>, lent: set<Node>)
    requires Tree(own, lent, root)
    modifies root`model
    ensures root.model == Apply(old(root.model), p, e)
    ensures InWalk(own, lent, root, old(root.model), p, e)
  {
    var m, others := root.model, own + lent - {root};
    forall n | n in own ensures Denotes(n, n.model, others) {
      assert forall name <- n.fields :: |n.at + [name]| > 0;
    }
    root.model := Apply(m, p, e);
    DenotesMore(root.fields, root.at, m, others, own + lent);
    forall n | n in own && n != root ensures Denotes(n, n.model, own + lent) {
      assert Denotes(n, n.model, others);
      DenotesMore(n.fields, n.at, n.model, others, own + lent);
    }
  }

  /** The walk is at the step with that number, and the edit changes nothing on lent messages. */
  ghost predicate At(own: set<Node>, lent: set<Node>, cur: Node, m: Message, p: Path, i: nat, e: Edit)
    reads own, lent
  {
    i < |p| && cur.at == Names(p)[..i] && InWalk(own, lent, cur, m, p[i..], e) && Idles(lent, p, e)
  }

  lemma NextCell(cur: Node, p: Path, i: nat, own: set<Node>, lent: set<Node>, m: Message, e: Edit)
    requires At(own, lent, cur, m, p, i, e) && i + 1 < |p|
    ensures p[i].name in cur.fields ==>
      (var c := cur.fields[p[i].name];
       && (c.Child? <==> m.fields[p[i].name].Sub?)
       && (c.Child? ==> c.node.at == Names(p)[..i + 1] && (c.node in lent ==> Idle(c.node.model, p[i + 1..], e))))
    ensures p[i].name !in cur.fields && e.Put? ==> cur in own
  {
    assert Names(p)[..i] + [p[i].name] == Names(p)[..i + 1];
    ReadUnfold(m, p[i..]);
  }

  /** A step into an existing message that is not the last one. */
  method Descend(cur: Node, name: string, ghost p: Path, ghost i: nat, ghost own: set<Node>, ghost lent: set<Node>,
                 ghost m: Message, ghost e: Edit)
    returns (next: Node, ghost below: Message)
    requires At(own, lent, cur, m, p, i, e) && i + 1 < |p| && p[i].name == name
    requires name in cur.fields && cur.fields[name].Child?
    modifies own`model
    ensures At(own, lent, next, below, p, i + 1, e)
    ensures Walkable(m, p[i..]) <==> Walkable(below, p[i + 1..])
    ensures Read(m, p[i..]) == Read(below, p[i + 1..])
    ensures forall n <- own :: n.at == [] ==> n.model == old(n.model)
  {
    assert p[i..][1..] == p[i + 1..];
    NextCell(cur, p, i, own, lent, m, e);
    ReadUnfold(m, p[i..]);
    below := cur.fields[name].node.model;
    next := Enter(cur, name, own, lent, m, p[i..], e);
  }

  /** A step of `Path.Set` that is not the last one. */
  method Advance(cur: Node, name: string, ghost p: Path, ghost i: nat, ghost own: set<Node>, ghost lent: set<Node>,
                 ghost m: Message, ghost e: Edit)
    returns (next: Node, ghost now: set<Node>, ghost below: Message)
    requires At(own, lent, cur, m, p, i, e) && i + 1 < |p| && p[i].name == name
    requires e.Put? && p[i].shape.SingularMessage? && Walkable(m, p[i..])
    modifies own
    ensures At(now, lent, next, below, p, i + 1, e)
    ensures Walkable(below, p[i + 1..]) && Read(m, p[i..]) == Read(below, p[i + 1..])
    ensures forall n <- now :: n in own || fresh(n)
    ensures forall n <- own :: n.at == [] ==> n in now && n.model == old(n.model)
  {
    NextCell(cur, p, i, own, lent, m, e);
    if name in cur.fields {
      now := own;
      next, below := Descend(cur, name, p, i, own, lent, m, e);
    } else {
      assert p[i..][1..] == p[i + 1..] && cur.at + [name] == Names(p)[..i + 1];
      ReadUnfold(m, p[i..]);
      ReadUnfold(EMPTY, p[i + 1..]);
      next, now := Create(cur, name, own, lent, m, p[i..], e);
      below := EMPTY;
    }
  }

  /** The last step of `Path.Set`. */
  method Finish(cur: Node, p: Path, cell: Cell, ghost own: set<Node>, ghost lent: set<Node>, ghost m: Message,
                ghost e: Edit, ghost root: Node)
    returns (ghost now: set<Node>)
    requires p != [] && At(own, lent, cur, m, p, |p| - 1, e) && root in own && root.at == []
    requires Placed(cell, Names(p), lent) && Stores(lent, p, cell) && e == Put(ValueOf(cell))
    modifies cur`fields
    ensures now <= own && Tree(now, lent, root) && (cur in lent ==> cur.fields == old(cur.fields))
  {
    var i := |p| - 1;
    assert p[i..] == [p[i]] && Names(p)[..i] + [p[i].name] == Names(p);
    if cur in lent { ReadUnfold(m, [p[i]]); }
    var stored := if CellPresent(p[i].shape, cell) then Some(cell) else None;
    now := Store(cur, p[i], stored, own, lent, m, e);
  }

  /** What is written at the scalar at which a write panics: what it has, or its default. */
  ghost predicate Halts(v: Option<Value>, f: Field, e: Edit) {
    f.shape.SingularScalar? &&
    if v.Some? then e == Put(v.value) && Present(f.shape, v.value) else e == Put(Default(f.shape))
  }

  /** The step at which `Path.Set` panics: a scalar that is not set gets its default before that. */
  method Halt(cur: Node, f: Field, ghost p: Path, ghost own: set<Node>, ghost lent: set<Node>, ghost m: Message,
              ghost e: Edit, ghost root: Node)
    returns (ghost now: set<Node>)
    requires p != [] && At(own, lent, cur, m, p, |p| - 1, e) && root in own && root.at == []
    requires p[|p| - 1] == f && Halts(Read(m, p[|p| - 1..]), f, e)
    modifies cur`fields
    ensures now <= own && Tree(now, lent, root) && (cur in lent ==> cur.fields == old(cur.fields))
  {
    now := own;
    assert p[|p| - 1..] == [f] && [f][1..] == [];
    ReadUnfold(m, [f]);
    if f.name in cur.fields {
      IdleChangesNothing(m, [f], e);
      Settled(root, cur, own, lent, m, [f], e);
    } else {
      var value := Default(f.shape);
      var stored := if Present(f.shape, value) then Some(Plain(value)) else None;
      now := Store(cur, f, stored, own, lent, m, e);
    }
  }

  /** One round of the loop of `Path.Set`, along the part `q` of the path that it reaches: it ends at the last step, or
      with a panic. */
  method SetStep(root: Node, cur: Node, p: Path, i: nat, cell: Cell, ghost q: Path, ghost e: Edit,
                 ghost own: set<Node>, ghost lent: set<Node>, ghost m: Message)
    returns (done: bool, panicked: bool, next: Node, ghost now: set<Node>, ghost below: Message)
    requires At(own, lent, cur, m, q, i, e) && Walkable(m, q[i..]) && root in own && root.at == [] && e.Put?
    requires q <= p && forall k :: 0 <= k < |q| - 1 ==> p[k].shape.SingularMessage?
    requires |q| == |p| ==> e == Put(ValueOf(cell)) && Placed(cell, Names(p), lent) && Stores(lent, p, cell)
    requires |q| < |p| ==> Halts(Read(m, q[i..]), p[|q| - 1], e)
    modifies own, cur`fields
    ensures root in now && root.model == old(root.model) && forall n <- now :: n in own || fresh(n)
    ensures cur in lent ==> cur.fields == old(cur.fields)
    ensures done ==> Tree(now, lent, root) && (panicked <==> |q| < |p|)
    ensures !done ==>
      && i + 1 < |q| && At(now, lent, next, below, q, i + 1, e)
      && Walkable(below, q[i + 1..]) && Read(below, q[i + 1..]) == Read(m, q[i..])
  {
    done, panicked, next, below := true, false, cur, m;
    if i == |p| - 1 {
      assert q == p;
      now := Finish(cur, p, cell, own, lent, m, e, root);
    } else if !p[i].shape.SingularMessage? {
      assert i == |q| - 1 && q[i] == p[i];
      panicked := true;
      now := Halt(cur, p[i], q, own, lent, m, e, root);
    } else {
      done := false;
      MessageStepIsInside(q, p, i, e, m);
      next, now, below := Advance(cur, p[i].name, q, i, own, lent, m, e);
    }
  }

  lemma MessageStepIsInside(q: Path, p: Path, i: nat, e: Edit, m: Message)
    requires q <= p && i < |q| && i + 1 < |p| && p[i].shape.SingularMessage?
    requires |q| < |p| ==> Halts(Read(m, q[i..]), p[|q| - 1], e)
    ensures i + 1 < |q| && q[i] == p[i]
  {
  }

  /** The loop of `Path.Set`. */
  method SetWalk(root: Node, p: Path, cell: Cell, ghost q: Path, ghost e: Edit, ghost own: set<Node>,
                 ghost lent: set<Node>)
    returns (panicked: bool, ghost now: set<Node>)
    requires Tree(own, lent, root) && Walkable(root.model, q) && Idles(lent, q, e) && e.Put?
    requires p != [] && q != [] && q <= p && forall i :: 0 <= i < |q| - 1 ==> p[i].shape.SingularMessage?
    requires |q| == |p| ==> e == Put(ValueOf(cell)) && Placed(cell, Names(p), lent) && Stores(lent, p, cell)
    requires |q| < |p| ==> Halts(Read(root.model, q), p[|q| - 1], e)
    modifies own, lent
    ensures Tree(now, lent, root) && forall n <- now :: n in own || fresh(n)
    ensures (panicked <==> |q| < |p|) && root.model == Apply(old(root.model), q, e)
    ensures forall n <- lent :: n.fields == old(n.fields) && n.model == old(n.model)
  {
    var cur, i, done := root, 0, false;
    ghost var m := root.model;
    now, panicked := own, false;
    Begin(root, q, e, own, lent);
    assert q[0..] == q;
    while !done
      invariant root in now && (forall n <- now :: n in own || fresh(n)) && root.model == Apply(old(root.model), q, e)
      invariant !done ==> At(now, lent, cur, m, q, i, e) && Walkable(m, q[i..])
      invariant !done ==> Read(m, q[i..]) == Read(old(root.model), q)
      invariant done ==> Tree(now, lent, root) && (panicked <==> |q| < |p|)
      invariant forall n <- lent :: n.fields == old(n.fields) && n.model == old(n.model)
      decreases !done, |q| - i
    {
      done, panicked, cur, now, m := SetStep(root, cur, p, i, cell, q, e, now, lent, m);
      if !done { i := i + 1; }
    }
  }

  /** `Path.Set`, for any compiled path and well formed object: the object becomes what writing along the path makes of
      it.  It panics exactly on a path with another field than a message before its last step, having walked and
      written up to that field.  The messages that the object shares with another one stay as they are. */
  method Set(root: Node, p: Path, cell: Cell, ghost schema: Schema, ghost ty: string, ghost own: set<Node>,
             ghost lent: set<Node>)
    returns (panicked: bool, ghost now: set<Node>)
    requires Tree(own, lent, root) && WellFormed(schema, ty, root.model) && Compiled(schema, ty, p)
    requires |Reach(p)| == |p| > 0 ==> Placed(cell, Names(p), lent) && Stores(lent, p, cell)
    requires Idles(lent, Reach(p), SetEdit(root.model, p, ValueOf(cell)))
    modifies own, lent
    ensures Tree(now, lent, root) && forall n <- now :: n in own || fresh(n)
    ensures panicked <==> |Reach(p)| < |p|
    ensures !panicked ==> root.model == Write(old(root.model), p, old(ValueOf(cell)))
    ensures panicked ==> root.model == Apply(old(root.model), Reach(p), old(SetEdit(root.model, p, ValueOf(cell))))
    ensures forall n <- lent :: n.fields == old(n.fields) && n.model == old(n.model)
  {
    if |p| == 0 { return false, own; }
    ghost var q, e := Reach(p), SetEdit(root.model, p, ValueOf(cell));
    ReachSteps(p);
    ReachIsSafe(schema, ty, root.model, p, q);
    if |q| < |p| { ReachStopsAtScalar(schema, ty, p, |q|); }
    EditIsPlanned(root.model, p, q, ValueOf(cell));
    assert q <= p && (|q| == |p| ==> q == p);
    panicked, now := SetWalk(root, p, cell, q, e, own, lent);
  }

  /** The part of the path that a write reaches can be walked, and what is there is present. */
  lemma ReachIsSafe(schema: Schema, ty: string, m: Message, p: Path, q: Path)
    requires WellFormed(schema, ty, m) && Compiled(schema, ty, p) && q == Reach(p) && q != []
    ensures Walkable(m, q)
    ensures Read(m, q).Some? ==> Present(q[|q| - 1].shape, Read(m, q).value)
  {
    ReachIsTyped(schema, ty, p);
    TypedIsWalkable(schema, ty, m, q);
    if Read(m, q).Some? { ReadIsPresent(schema, ty, m, q); }
  }

  lemma EditIsPlanned(m: Message, p: Path, q: Path, v: Value)
    requires p != [] && q == Reach(p)
    requires |q| < |p| ==> q[|q| - 1].shape.SingularScalar?
    requires Read(m, q).Some? ==> Present(q[|q| - 1].shape, Read(m, q).value)
    ensures SetEdit(m, p, v).Put?
    ensures |q| == |p| ==> SetEdit(m, p, v) == Put(v)
    ensures |q| < |p| ==> Halts(Read(m, q), q[|q| - 1], SetEdit(m, p, v))
  {
  }

  /** `Path.Clear`: the walk stops where a message is missing, and creates none.  It panics, and changes nothing,
      exactly when it comes upon another value than a message before the last step. */
  method Clear(root: Node, p: Path, ghost own: set<Node>, ghost lent: set<Node>)
    returns (panicked: bool, ghost now: set<Node>)
    requires Tree(own, lent, root) && Idles(lent, p, Del)
    modifies own
    ensures Tree(now, lent, root) && now <= own
    ensures root.model == Erase(old(root.model), p)
    ensures panicked <==> !Walkable(old(root.model), p)
    ensures panicked ==> root.model == old(root.model)
  {
    if |p| == 0 { return false, own; }
    var cur, i, done := root, 0, false;
    ghost var m := root.model;
    now, panicked := own, false;
    Begin(root, p, Del, own, lent);
    assert p[0..] == p;
    while !done
      invariant now <= own && root in now && root.model == Apply(old(root.model), p, Del)
      invariant !done ==> At(now, lent, cur, m, p, i, Del)
      invariant !done ==> (Walkable(old(root.model), p) <==> Walkable(m, p[i..]))
      invariant done ==> Tree(now, lent, root) && (panicked <==> !Walkable(old(root.model), p))
      decreases !done, |p| - i
    {
      done, panicked, cur, now, m := ClearStep(root, cur, p, i, now, lent, m);
      if !done { i := i + 1; }
    }
    if panicked { NotWalkableIsIdle(old(root.model), p); }
  }

  /** One round of the loop of `Path.Clear`: it ends at a missing field, at the last step, or with a panic. */
  method ClearStep(root: Node, cur: Node, p: Path, i: nat, ghost own: set<Node>, ghost lent: set<Node>,
                   ghost m: Message)
    returns (done: bool, panicked: bool, next: Node, ghost now: set<Node>, ghost below: Message)
    requires At(own, lent, cur, m, p, i, Del) && root in own && root.at == []
    modifies own
    ensures now <= own && root in now && root.model == old(root.model)
    ensures done ==> Tree(now, lent, root) && (panicked <==> !Walkable(m, p[i..]))
    ensures !done ==> i + 1 < |p| && At(now, lent, next, below, p, i + 1, Del)
    ensures !done ==> (Walkable(m, p[i..]) <==> Walkable(below, p[i + 1..]))
  {
    done, panicked, next, now, below := true, false, cur, own, m;
    if p[i].name !in cur.fields {
      MissingSettles(root, cur, own, lent, m, p, i);
    } else if i == |p| - 1 {
      RemovesOwn(cur, p, own, lent, m);
      now := Remove(cur, p[i], p, own, lent, m, root);
    } else if cur.fields[p[i].name].Plain? {
      PlainSettles(root, cur, own, lent, m, p, i);
      panicked := true;
    } else {
      done := false;
      next, below := Descend(cur, p[i].name, p, i, own, lent, m, Del);
    }
  }

  lemma RemovesOwn(cur: Node, p: Path, own: set<Node>, lent: set<Node>, m: Message)
    requires p != [] && At(own, lent, cur, m, p, |p| - 1, Del) && p[|p| - 1].name in cur.fields
    ensures cur in own
  {
    var f := p[|p| - 1];
    assert p[|p| - 1..] == [f] && [f][1..] == [];
    ReadUnfold(m, [f]);
  }

  /** The last step of `Path.Clear`. */
  method Remove(cur: Node, f: Field, ghost p: Path, ghost own: set<Node>, ghost lent: set<Node>, ghost m: Message,
                ghost root: Node)
    returns (ghost now: set<Node>)
    requires p != [] && At(own, lent, cur, m, p, |p| - 1, Del) && p[|p| - 1] == f && f.name in cur.fields
    requires root in own && root.at == []
    modifies cur`fields
    ensures now <= own && Tree(now, lent, root)
  {
    RemovesOwn(cur, p, own, lent, m);
    assert p[|p| - 1..] == [f];
    now := Store(cur, f, None, own, lent, m, Del);
  }

  lemma MissingSettles(root: Node, cur: Node, own: set<Node>, lent: set<Node>, m: Message, p: Path, i: nat)
    requires At(own, lent, cur, m, p, i, Del) && p[i].name !in cur.fields && root in own && root.at == []
    ensures Tree(own, lent, root) && Walkable(m, p[i..])
  {
    ReadUnfold(m, p[i..]);
    IdleChangesNothing(m, p[i..], Del);
    Settled(root, cur, own, lent, m, p[i..], Del);
  }

  lemma PlainSettles(root: Node, cur: Node, own: set<Node>, lent: set<Node>, m: Message, p: Path, i: nat)
    requires At(own, lent, cur, m, p, i, Del) && i + 1 < |p| && root in own && root.at == []
    requires p[i].name in cur.fields && cur.fields[p[i].name].Plain?
    ensures Tree(own, lent, root) && !Walkable(m, p[i..])
  {
    NextCell(cur, p, i, own, lent, m, Del);
    NotWalkableIsIdle(m, p[i..]);
    Settled(root, cur, own, lent, m, p[i..], Del);
  }

  /** A walk that has nothing left to change is over. */
  lemma Settled(root: Node, cur: Node, own: set<Node>, lent: set<Node>, m: Message, rest: Path, e: Edit)
    requires InWalk(own, lent, cur, m, rest, e) && Apply(m, rest, e) == m && root in own && root.at == []
    ensures Tree(own, lent, root)
  {
  }

  lemma {:induction false} NotWalkableIsIdle(m: Message, p: Path)
    requires !Walkable(m, p)
    ensures Read(m, p).None? && Erase(m, p) == m
    decreases |p|
  {
    ReadUnfold(m, p);
    if m.fields[p[0].name].Sub? { NotWalkableIsIdle(m.fields[p[0].name].msg, p[1..]); }
    IdleChangesNothing(m, p, Del);
  }

  /** `Path.Get`: what the path reads in the tree, with the reference when it is a message.  It panics exactly when it
      comes upon another value than a message before the last step. */
  method Get(root: Node, p: Path, ghost nodes: set<Node>) returns (panicked: bool, r: Option<Cell>)
    requires Tree(nodes, {}, root)
    ensures panicked <==> !Walkable(root.model, p)
    ensures r.Some? ==> Placed(r.value, Names(p), nodes)
    ensures Read(root.model, p) == (if r.Some? then Some(ValueOf(r.value)) else None)
  {
    var value, i := Child(root), 0;
    assert p[0..] == p;
    while i < |p|
      invariant 0 <= i <= |p| && Placed(value, Names(p)[..i], nodes)
      invariant Read(root.model, p) == ReadValue(ValueOf(value), p[i..])
      invariant value.Plain? && i < |p| ==> !Walkable(root.model, p)
      invariant value.Child? ==> (Walkable(root.model, p) <==> Walkable(value.node.model, p[i..]))
      invariant value.Plain? && i == |p| ==> Walkable(root.model, p)
    {
      if value.Plain? { return true, None; }
      var message := value.node;
      if p[i].name !in message.fields { return false, None; }
      assert p[i..][1..] == p[i + 1..] && Names(p)[..i] + [p[i].name] == Names(p)[..i + 1];
      assert Denotes(message, message.model, nodes + {});
      value := message.fields[p[i].name];
      i := i + 1;
    }
    return false, Some(value);
  }

  // ---------------------------------------------------------------- the update of the server

  /** The path that the names spell. */
  ghost function Along(names: seq<string>): (p: Path)
    ensures |p| == |names|
  {
    seq(|names|, i requires 0 <= i < |names| => Field(names[i], SingularMessage("")))
  }

  /** An object of its own: each message is where its place says, and there is one for each place. */
  ghost predicate Whole(nodes: set<Node>, root: Node)
    reads nodes
  {
    Tree(nodes, {}, root) && forall n <- nodes :: Read(root.model, Along(n.at)) == Some(Sub(n.model))
  }

  lemma {:induction false} ReadFollowsNames(v: Value, p: Path, q: Path)
    requires Names(p) == Names(q)
    ensures ReadValue(v, p) == ReadValue(v, q)
    decreases |p|
  {
    if p != [] {
      assert |q| == |Names(q)| && q[0].name == Names(q)[0] == Names(p)[0] == p[0].name;
      assert Names(p[1..]) == Names(p)[1..] && Names(q[1..]) == Names(q)[1..];
      if v.Sub? && p[0].name in v.msg.fields { ReadFollowsNames(v.msg.fields[p[0].name], p[1..], q[1..]); }
    }
  }

  lemma {:induction false} ReadInTwo(v: Value, p: Path, i: nat)
    requires i <= |p|
    ensures ReadValue(v, p) ==
      (var there := ReadValue(v, p[..i]); if there.None? then None else ReadValue(there.value, p[i..]))
    decreases i
  {
    if i == 0 {
      assert p[0..] == p && p[..0] == [];
    } else if v.Sub? && p[0].name in v.msg.fields {
      ReadInTwo(v.msg.fields[p[0].name], p[1..], i - 1);
      assert p[1..][..i - 1] == p[..i][1..] && p[1..][i - 1..] == p[i..];
    }
  }

  /** A message of an object that lies along a path reads the rest of the path as the object reads all of it. */
  lemma ReadFromWithin(nodes: set<Node>, root: Node, p: Path, n: Node, i: nat)
    requires Whole(nodes, root) && n in nodes && i <= |p| && n.at == Names(p)[..i]
    ensures Read(n.model, p[i..]) == Read(root.model, p)
  {
    assert Names(Along(n.at)) == n.at == Names(p[..i]);
    ReadFollowsNames(Sub(root.model), Along(n.at), p[..i]);
    ReadInTwo(Sub(root.model), p, i);
  }

  /** Writing back what an object already reads changes nothing on its messages. */
  lemma EchoIdles(nodes: set<Node>, root: Node, p: Path)
    requires Whole(nodes, root) && p != []
    requires Read(root.model, p).Some? ==> Present(p[|p| - 1].shape, Read(root.model, p).value)
    ensures Idles(nodes, p, EditFor(root.model, p))
  {
    forall n, i | n in nodes && 0 <= i < |p| && n.at == Names(p)[..i]
      ensures Idle(n.model, p[i..], EditFor(root.model, p))
    {
      ReadFromWithin(nodes, root, p, n, i);
      assert p[i..][|p| - i - 1] == p[|p| - 1];
    }
  }

  lemma EchoStores(nodes: set<Node>, root: Node, p: Path, cell: Cell)
    requires Whole(nodes, root) && p != [] && Placed(cell, Names(p), nodes)
    requires Read(root.model, p) == Some(ValueOf(cell))
    ensures Stores(nodes, p, cell)
  {
    var k := |p| - 1;
    forall n | n in nodes && n.at == Names(p)[..k] ensures p[k].name in n.fields && n.fields[p[k].name] == cell {
      ReadFromWithin(nodes, root, p, n, k);
      ReadLast(n.model, p[k..]);
      assert Names(p)[..k] + [p[k].name] == Names(p);
      assert Denotes(n, n.model, nodes + {});
      SameCell(nodes, Names(p), n.fields[p[k].name], cell);
    }
  }

  lemma ReadLast(m: Message, p: Path)
    requires |p| == 1 && Read(m, p).Some?
    ensures p[0].name in m.fields && Read(m, p).value == m.fields[p[0].name]
  {
    ReadUnfold(m, p);
    assert p[1..] == [];
  }

  lemma SameCell(nodes: set<Node>, place: seq<string>, a: Cell, b: Cell)
    requires OnePerPlace(nodes) && Placed(a, place, nodes + {}) && Placed(b, place, nodes) && ValueOf(a) == ValueOf(b)
    ensures a == b
  {
  }

  /** Applying one path of a mask panics: on the request or on the object. */
  predicate PathPanics(target: Message, request: Message, p: Path) {
    !Walkable(request, p) || !Walkable(target, p)
  }

  /** One path of the mask.  Nothing is asked of the order of the paths, or of paths that overlap; a panic leaves
      everything as it was. */
  method ApplyPath(schema: Schema, ty: string, target: Node, request: Node, p: Path,
                   ghost own: set<Node>, ghost lent: set<Node>)
    returns (panicked: bool, ghost now: set<Node>)
    requires Tree(own, lent, target) && Whole(lent, request) && Compiled(schema, ty, p)
    requires WellFormed(schema, ty, target.model) && WellFormed(schema, ty, request.model)
    modifies own, lent
    ensures Tree(now, lent, target) && Whole(lent, request) && forall n <- now :: n in own || fresh(n)
    ensures panicked <==> PathPanics(old(target.model), old(request.model), p)
    ensures target.model ==
      if panicked then old(target.model) else Apply(old(target.model), p, EditFor(old(request.model), p))
    ensures forall n <- lent :: n.fields == old(n.fields) && n.model == old(n.model)
  {
    Prepared(schema, ty, target.model, request, p, lent);
    var value;
    panicked, value := Get(request, p, lent);
    now := own;
    if panicked { return; }
    if value.Some? {
      panicked, now := SetFrom(target, request, p, value.value, schema, ty, own, lent);
    } else {
      panicked, now := ClearFrom(target, request, p, own, lent);
    }
  }

  method SetFrom(target: Node, request: Node, p: Path, cell: Cell, ghost schema: Schema, ghost ty: string,
                 ghost own: set<Node>, ghost lent: set<Node>)
    returns (panicked: bool, ghost now: set<Node>)
    requires Tree(own, lent, target) && Whole(lent, request)
    requires WellFormed(schema, ty, target.model) && Compiled(schema, ty, p) && |Reach(p)| == |p|
    requires Placed(cell, Names(p), lent) && Read(request.model, p) == Some(ValueOf(cell))
    requires p != [] ==> Idles(lent, p, Put(ValueOf(cell)))
    modifies own, lent
    ensures Tree(now, lent, target) && Whole(lent, request) && forall n <- now :: n in own || fresh(n)
    ensures !panicked && target.model == Write(old(target.model), p, old(ValueOf(cell)))
    ensures forall n <- lent :: n.fields == old(n.fields) && n.model == old(n.model)
  {
    if p != [] { EchoStores(lent, request, p, cell); }
    assert Reach(p) == p;
    panicked, now := Set(target, p, cell, schema, ty, own, lent);
  }

  method ClearFrom(target: Node, request: Node, p: Path, ghost own: set<Node>, ghost lent: set<Node>)
    returns (panicked: bool, ghost now: set<Node>)
    requires Tree(own, lent, target) && Whole(lent, request) && Idles(lent, p, Del)
    modifies own
    ensures Tree(now, lent, target) && Whole(lent, request) && now <= own
    ensures target.model == Erase(old(target.model), p)
    ensures panicked <==> !Walkable(old(target.model), p)
    ensures panicked ==> target.model == old(target.model)
  {
    panicked, now := Clear(target, p, own, lent);
  }

  /** When the request has a value to set, the path goes through messages only; and what is set or cleared changes
      nothing on the messages of the request. */
  lemma Prepared(schema: Schema, ty: string, target: Message, request: Node, p: Path, lent: set<Node>)
    requires WellFormed(schema, ty, target) && WellFormed(schema, ty, request.model) && Compiled(schema, ty, p)
    requires Whole(lent, request)
    ensures Read(request.model, p).Some? ==> !PathPanics(target, request.model, p) && |Reach(p)| == |p|
    ensures p != [] ==> Idles(lent, p, EditFor(request.model, p))
    ensures Read(request.model, p).None? ==> p != []
  {
    if Read(request.model, p).Some? {
      ReadIsTyped(schema, ty, request.model, p);
      ReachesEndIff(schema, ty, p);
      TypedIsWalkable(schema, ty, target, p);
      TypedIsWalkable(schema, ty, request.model, p);
      if p != [] { ReadIsPresent(schema, ty, request.model, p); }
    }
    if p != [] { EchoIdles(lent, request, p); }
  }

  lemma RequestKeepsWellFormed(schema: Schema, ty: string, m: Message, p: Path, request: Message)
    requires ValidSchema(schema) && WellFormed(schema, ty, m) && WellFormed(schema, ty, request)
    requires Compiled(schema, ty, p)
    ensures WellFormed(schema, ty, Apply(m, p, EditFor(request, p)))
  {
    if p != [] {
      if Read(request, p).Some? {
        ReadIsTyped(schema, ty, request, p);
        ReadIsPresent(schema, ty, request, p);
        EditKeepsWellFormed(schema, ty, m, p, EditFor(request, p));
      } else if Read(m, p).Some? {
        ReadIsTyped(schema, ty, m, p);
        EditKeepsWellFormed(schema, ty, m, p, Del);
      } else {
        IdleChangesNothing(m, p, Del);
      }
    }
  }

  /** The update loop: path after path the object becomes the patched one, however the paths overlap, up to the
      first that panics, and the request, whose messages the object now shares, is as it was. */
  method ApplyMask(schema: Schema, ty: string, target: Node, request: Node, mask: seq<Path>,
                   ghost own: set<Node>, ghost lent: set<Node>)
    returns (applied: nat, ghost now: set<Node>)
    requires ValidSchema(schema) && Tree(own, lent, target) && Whole(lent, request)
    requires WellFormed(schema, ty, target.model) && WellFormed(schema, ty, request.model)
    requires forall k :: 0 <= k < |mask| ==> Compiled(schema, ty, mask[k])
    modifies own, lent
    ensures Tree(now, lent, target) && forall n <- now :: n in own || fresh(n)
    ensures applied == Applicable(old(target.model), mask, old(request.model))
    ensures target.model == Patch(old(target.model), mask[..applied], old(request.model))
    ensures WellFormed(schema, ty, target.model)
    ensures forall n <- lent :: n.fields == old(n.fields) && n.model == old(n.model)
  {
    now, applied := own, 0;
    ghost var before := target.model;
    assert mask[..0] == [];
    while applied < |mask|
      invariant applied <= |mask| && Tree(now, lent, target) && Whole(lent, request)
      invariant forall n <- now :: n in own || fresh(n)
      invariant WellFormed(schema, ty, target.model)
      invariant target.model == Patch(before, mask[..applied], old(request.model))
      invariant Applicable(before, mask[..applied], old(request.model)) == applied
      invariant forall n <- lent :: n.fields == old(n.fields) && n.model == old(n.model)
    {
      ApplicableNext(before, mask, request.model, applied);
      RequestKeepsWellFormed(schema, ty, target.model, mask[applied], request.model);
      var panicked;
      panicked, now := ApplyPath(schema, ty, target, request, mask[applied], now, lent);
      if panicked { return; }
      applied := applied + 1;
    }
    assert mask[..|mask|] == mask;
  }

  /** How many paths of the mask can be applied before one panics. */
  function Applicable(m: Message, mask: seq<Path>, request: Message): (n: nat)
    ensures n <= |mask|
    decreases |mask|
  {
    if mask == [] then 0
    else
      var init := mask[..|mask| - 1];
      var n := Applicable(m, init, request);
      if n == |init| && !PathPanics(Patch(m, init, request), request, mask[|mask| - 1]) then n + 1 else n
  }

  lemma {:induction false} ApplicableNext(m: Message, mask: seq<Path>, request: Message, k: nat)
    requires k < |mask| && Applicable(m, mask[..k], request) == k
    ensures mask[..k + 1][..k] == mask[..k]
    ensures PathPanics(Patch(m, mask[..k], request), request, mask[k]) ==> Applicable(m, mask, request) == k
    ensures !PathPanics(Patch(m, mask[..k], request), request, mask[k]) ==>
      Applicable(m, mask[..k + 1], request) == k + 1
    decreases |mask|
  {
    assert mask[..k + 1][..k] == mask[..k];
    var init := mask[..|mask| - 1];
    if k < |init| {
      assert init[..k] == mask[..k] && init[..k + 1] == mask[..k + 1];
      ApplicableNext(m, init, request, k);
    } else {
      assert mask[..k + 1] == mask && init == mask[..k];
    }
  }

  lemma {:induction false} PatchStaysWellFormed(schema: Schema, ty: string, m: Message, mask: seq<Path>,
                                                request: Message)
    requires ValidSchema(schema) && WellFormed(schema, ty, m) && WellFormed(schema, ty, request)
    requires forall k :: 0 <= k < |mask| ==> Compiled(schema, ty, mask[k])
    ensures WellFormed(schema, ty, Patch(m, mask, request))
    decreases |mask|
  {
    if mask != [] {
      var init, p := mask[..|mask| - 1], mask[|mask| - 1];
      PatchStaysWellFormed(schema, ty, m, init, request);
      RequestKeepsWellFormed(schema, ty, Patch(m, init, request), p, request);
    }
  }

  lemma {:induction false} TypedMaskApplies(schema: Schema, ty: string, m: Message, mask: seq<Path>, request: Message)
    requires ValidSchema(schema) && WellFormed(schema, ty, m) && WellFormed(schema, ty, request)
    requires forall k :: 0 <= k < |mask| ==> Compiled(schema, ty, mask[k]) && Typed(schema, ty, mask[k])
    ensures Applicable(m, mask, request) == |mask|
    decreases |mask|
  {
    if mask != [] {
      var init, p := mask[..|mask| - 1], mask[|mask| - 1];
      TypedMaskApplies(schema, ty, m, init, request);
      PatchStaysWellFormed(schema, ty, m, init, request);
      TypedIsWalkable(schema, ty, Patch(m, init, request), p);
      TypedIsWalkable(schema, ty, request, p);
    }
  }

  lemma {:induction false} UnwalkableStops(m: Message, mask: seq<Path>, request: Message, k: nat)
    requires k < |mask| && !Walkable(request, mask[k])
    ensures Applicable(m, mask, request) <= k
    decreases |mask|
  {
    if k < |mask| - 1 { UnwalkableStops(m, mask[..|mask| - 1], request, k); }
  }

  /** A compiled mask is applied in full to every object, from every request, exactly when all its paths follow the
      descriptor. */
  lemma MaskAppliesIff(schema: Schema, ty: string, mask: seq<Path>)
    requires ValidSchema(schema) && ty in schema && forall k :: 0 <= k < |mask| ==> Compiled(schema, ty, mask[k])
    ensures (forall m, request | WellFormed(schema, ty, m) && WellFormed(schema, ty, request) ::
               Applicable(m, mask, request) == |mask|) <==>
            forall k :: 0 <= k < |mask| ==> Typed(schema, ty, mask[k])
  {
    if k :| 0 <= k < |mask| && !Typed(schema, ty, mask[k]) {
      var request := UntypedFails(schema, ty, mask[k]);
      UnwalkableStops(request, mask, request, k);
    } else {
      forall m, request | WellFormed(schema, ty, m) && WellFormed(schema, ty, request)
        ensures Applicable(m, mask, request) == |mask|
      {
        TypedMaskApplies(schema, ty, m, mask, request);
      }
    }
  }

  // ---------------------------------------------------------------- copies

  /** Messages that only refer to each other, all at or below a place. */
  ghost predicate Closed(nodes: set<Node>, place: seq<string>)
    reads nodes
  {
    && OnePerPlace(nodes)
    && forall n <- nodes :: place <= n.at && Denotes(n, n.model, nodes)
  }

  /** Messages below the named fields of the message at a place. */
  ghost predicate Below(nodes: set<Node>, place: seq<string>, names: set<string>)
    reads nodes
  {
    && OnePerPlace(nodes)
    && (forall n <- nodes :: Denotes(n, n.model, nodes))
    && (forall n <- nodes :: |place| < |n.at| && n.at[..|place|] == place && n.at[|place|] in names)
  }

  lemma BelowOneMore(nodes: set<Node>, more: set<Node>, place: seq<string>, names: set<string>, name: string)
    requires Below(nodes, place, names) && name !in names && Closed(more, place + [name])
    ensures Below(nodes + more, place, names + {name})
  {
    forall n | n in more ensures |place| < |n.at| && n.at[..|place|] == place && n.at[|place|] == name {
      assert n.at[..|place| + 1] == place + [name];
    }
    forall n | n in nodes ensures Denotes(n, n.model, nodes + more) {
      DenotesMore(n.fields, n.at, n.model, nodes, nodes + more);
    }
    forall n | n in more ensures Denotes(n, n.model, nodes + more) {
      DenotesMore(n.fields, n.at, n.model, more, nodes + more);
    }
  }

  lemma ClosedWithTop(nodes: set<Node>, place: seq<string>, names: set<string>, top: Node)
    requires Below(nodes, place, names) && top.at == place && Denotes(top, top.model, nodes)
    ensures Closed(nodes + {top}, place)
  {
    forall n | n in nodes ensures Denotes(n, n.model, nodes + {top}) {
      DenotesMore(n.fields, n.at, n.model, nodes, nodes + {top});
    }
    DenotesMore(top.fields, top.at, top.model, nodes, nodes + {top});
  }

  /** `proto.Clone`: a copy that stands for the same tree and shares nothing with the original. */
  method Clone(source: Node, ghost nodes: set<Node>, ghost at: seq<string>)
    returns (copy: Node, ghost copies: set<Node>)
    requires source in nodes && forall n <- nodes :: Denotes(n, n.model, nodes)
    ensures fresh(copies) && copy in copies && copy.at == at && copy.model == source.model
    ensures Closed(copies, at)
    decreases source.model
  {
    ghost var below: set<Node> := {};
    var fields: map<string, Cell> := map[];
    var pending := source.fields.Keys;
    while pending != {}
      invariant pending <= source.fields.Keys && fields.Keys == source.fields.Keys - pending
      invariant fresh(below) && Below(below, at, fields.Keys)
      invariant CellsDenote(fields, at, source.model, below)
      decreases pending
    {
      var name :| name in pending;
      assert Placed(source.fields[name], source.at + [name], nodes);
      var cell, more := CloneCell(source.fields[name], source.model.fields[name], nodes, at + [name]);
      BelowOneMore(below, more, at, fields.Keys, name);
      CellsOneMore(fields, at, source.model, below, more, name, cell);
      fields, below, pending := fields[name := cell], below + more, pending - {name};
    }
    copy := Assemble(fields, at, source.model, below);
    copies := below + {copy};
  }

  method Assemble(fields: map<string, Cell>, ghost at: seq<string>, ghost m: Message, ghost below: set<Node>)
    returns (copy: Node)
    requires Below(below, at, fields.Keys) && CellsDenote(fields, at, m, below) && fields.Keys == m.fields.Keys
    ensures fresh(copy) && copy.at == at && copy.model == m && Closed(below + {copy}, at)
  {
    copy := new Node(at, fields, m);
    ClosedWithTop(below, at, fields.Keys, copy);
  }

  method CloneCell(cell: Cell, ghost v: Value, ghost nodes: set<Node>, ghost place: seq<string>)
    returns (copy: Cell, ghost copies: set<Node>)
    requires forall n <- nodes :: Denotes(n, n.model, nodes)
    requires (cell.Child? ==> cell.node in nodes) && (cell.Plain? ==> !cell.value.Sub?) && v == ValueOf(cell)
    ensures fresh(copies) && Closed(copies, place) && Placed(copy, place, copies) && ValueOf(copy) == v
    decreases v
  {
    match cell
    case Plain(x) => copy, copies := cell, {};
    case Child(c) =>
      var node;
      node, copies := Clone(c, nodes, place);
      copy := Child(node);
  }

  /** The cells so far stand for the fields of the same names. */
  ghost predicate CellsDenote(fields: map<string, Cell>, at: seq<string>, m: Message, nodes: set<Node>)
    reads nodes`model
  {
    && fields.Keys <= m.fields.Keys
    && forall name <- fields :: Placed(fields[name], at + [name], nodes) && ValueOf(fields[name]) == m.fields[name]
  }

  lemma CellsOneMore(fields: map<string, Cell>, at: seq<string>, m: Message, nodes: set<Node>, more: set<Node>,
                     name: string, cell: Cell)
    requires CellsDenote(fields, at, m, nodes) && name in m.fields
    requires Placed(cell, at + [name], more) && ValueOf(cell) == m.fields[name]
    ensures CellsDenote(fields[name := cell], at, m, nodes + more)
  {
  }

  ghost function Reached(nodes: set<Node>, root: Node): set<Node>
    reads root`model, nodes`model
  {
    set n <- nodes | Read(root.model, Along(n.at)) == Some(Sub(n.model))
  }

  /** The messages that an object reaches are an object of its own: copies, for one, can serve as requests. */
  lemma ReachableIsWhole(nodes: set<Node>, root: Node)
    requires Closed(nodes, []) && root in nodes && root.at == []
    ensures Whole(Reached(nodes, root), root)
  {
    var reached := Reached(nodes, root);
    forall n, name | n in reached && name in n.fields && n.fields[name].Child? ensures n.fields[name].node in reached {
      ChildIsReached(nodes, root, n, name);
    }
    forall n | n in reached ensures Denotes(n, n.model, reached + {}) {
      assert Denotes(n, n.model, nodes);
    }
  }

  lemma ChildIsReached(nodes: set<Node>, root: Node, n: Node, name: string)
    requires Closed(nodes, []) && n in nodes && Read(root.model, Along(n.at)) == Some(Sub(n.model))
    requires name in n.fields && n.fields[name].Child?
    ensures var c := n.fields[name].node; c in nodes && Read(root.model, Along(c.at)) == Some(Sub(c.model))
  {
    assert Denotes(n, n.model, nodes);
    var c := n.fields[name].node;
    var p, i := Along(c.at), |n.at|;
    assert p[..i] == Along(n.at) && p[i..] == [p[i]] && p[i].name == name && [p[i]][1..] == [];
    ReadInTwo(Sub(root.model), p, i);
    ReadUnfold(n.model, [p[i]]);
  }

  lemma CopyIsTree(copies: set<Node>, copy: Node, lent: set<Node>, request: Node)
    requires Closed(copies, []) && copy in copies && copy.at == [] && copies !! lent && Whole(lent, request)
    ensures Tree(copies, lent, copy)
  {
    forall n | n in copies ensures Denotes(n, n.model, copies + lent) {
      DenotesMore(n.fields, n.at, n.model, copies, copies + lent);
    }
    assert lent + {} == lent;
  }

  /** A copy of the object, patched up to the first path that panics. */
  method PatchCopy(schema: Schema, ty: string, current: Node, request: Node, mask: seq<Path>,
                   ghost objects: set<Node>, ghost lent: set<Node>)
    returns (target: Node, applied: nat)
    requires ValidSchema(schema) && Whole(lent, request)
    requires current in objects && forall n <- objects :: Denotes(n, n.model, objects)
    requires WellFormed(schema, ty, current.model) && WellFormed(schema, ty, request.model)
    requires forall k :: 0 <= k < |mask| ==> Compiled(schema, ty, mask[k])
    modifies lent
    ensures applied == Applicable(old(current.model), mask, old(request.model))
    ensures target.model == Patch(old(current.model), mask[..applied], old(request.model))
    ensures WellFormed(schema, ty, target.model)
    ensures forall n <- lent :: n.fields == old(n.fields) && n.model == old(n.model)
  {
    ghost var copies;
    target, copies := Clone(current, objects, []);
    CopyIsTree(copies, target, lent, request);
    applied, copies := ApplyMask(schema, ty, target, request, mask, copies, lent);
  }

  /** The update: without a mask the request replaces the object; with one, a copy of the object is patched, unless some
      path panics.  Neither the stored object nor the request changes. */
  method Update(schema: Schema, ty: string, current: Node, request: Node, mask: Option<seq<Path>>,
                ghost objects: set<Node>, ghost lent: set<Node>)
    returns (result: Option<Node>)
    requires ValidSchema(schema) && Whole(lent, request)
    requires current in objects && forall n <- objects :: Denotes(n, n.model, objects)
    requires WellFormed(schema, ty, current.model) && WellFormed(schema, ty, request.model)
    requires mask.Some? ==> forall k :: 0 <= k < |mask.value| ==> Compiled(schema, ty, mask.value[k])
    modifies lent
    ensures result.None? <==>
      mask.Some? && Applicable(old(current.model), mask.value, old(request.model)) < |mask.value|
    ensures result.Some? && mask.Some? ==>
      result.value.model == Patch(old(current.model), mask.value, old(request.model))
    ensures result.Some? && mask.None? ==> result.value.model == old(request.model)
    ensures result.Some? ==> WellFormed(schema, ty, result.value.model)
    ensures forall n <- objects + lent :: n.fields == old(n.fields) && n.model == old(n.model)
  {
    if mask.None? { return Some(request); }
    var target, applied := PatchCopy(schema, ty, current, request, mask.value, objects, lent);
    assert mask.value[..|mask.value|] == mask.value;
    result := if applied < |mask.value| then None else Some(target);
  }
}
