/** Creation and lookup of hierarchical groups in the identity provider (internal/idp/groups.go). */
module Groups {
  import opened Wrappers
  import Strings

  // ---------------------------------------------------------------- path texts

  /** `strings.Trim(s, "/")`. */
  function TrimSlashes(s: string): string
    decreases |s|
  {
    if s == "" then ""
    else if s[0] == '/' then TrimSlashes(s[1..])
    else if s[|s| - 1] == '/' then TrimSlashes(s[..|s| - 1])
    else s
  }

  /** `strings.ReplaceAll(s, "//", "/")`: one pass from the left, so longer runs of slashes are halved, not removed. */
  function Collapse(s: string): string {
    if |s| >= 2 && s[0] == '/' && s[1] == '/' then "/" + Collapse(s[2..])
    else if s == "" then ""
    else [s[0]] + Collapse(s[1..])
  }

  function Slashes(n: nat): string {
    if n == 0 then "" else "/" + Slashes(n - 1)
  }

  lemma {:induction false} SlashesEnd(n: nat)
    ensures Slashes(n) + "/" == Slashes(n + 1)
  {
    if n > 0 {
      SlashesEnd(n - 1);
      assert Slashes(n) + "/" == "/" + (Slashes(n - 1) + "/");
    }
  }

  lemma FrontSlash(a: nat, t: string, b: nat)
    ensures "/" + (Slashes(a) + t + Slashes(b)) == Slashes(a + 1) + t + Slashes(b)
  {
    assert Slashes(a + 1) == "/" + Slashes(a);
  }

  lemma EndSlash(a: nat, t: string, b: nat)
    ensures (Slashes(a) + t + Slashes(b)) + "/" == Slashes(a) + t + Slashes(b + 1)
  {
    SlashesEnd(b);
  }

  /** Trimming takes slashes off both ends, and nothing else. */
  lemma {:induction false} TrimSlashesTakesOnlySlashes(s: string) returns (a: nat, b: nat)
    ensures s == Slashes(a) + TrimSlashes(s) + Slashes(b)
    decreases |s|
  {
    a, b := 0, 0;
    if s != "" && s[0] == '/' {
      a, b := TrimSlashesTakesOnlySlashes(s[1..]);
      assert s == "/" + s[1..];
      FrontSlash(a, TrimSlashes(s[1..]), b);
      a := a + 1;
    } else if s != "" && s[|s| - 1] == '/' {
      a, b := TrimSlashesTakesOnlySlashes(s[..|s| - 1]);
      assert s == s[..|s| - 1] + "/";
      EndSlash(a, TrimSlashes(s[..|s| - 1]), b);
      b := b + 1;
    }
  }

  lemma CollapsePair(rest: string)
    ensures Collapse("//" + rest) == "/" + Collapse(rest)
  {
    assert ("//" + rest)[2..] == rest;
  }

  lemma CollapseSingle(rest: string)
    requires rest == "" || rest[0] != '/'
    ensures Collapse("/" + rest) == "/" + Collapse(rest)
  {
    assert ("/" + rest)[1..] == rest;
  }

  lemma TwoSlashes(n: nat, rest: string)
    ensures Slashes(n + 2) + rest == "//" + (Slashes(n) + rest)
  {
    assert Slashes(n + 2) == "/" + ("/" + Slashes(n));
  }

  lemma OneSlash(n: nat, rest: string)
    ensures Slashes(n + 1) + rest == "/" + (Slashes(n) + rest)
  {
    assert Slashes(n + 1) == "/" + Slashes(n);
  }

  /** One pass halves a run of slashes, rounding up. */
  lemma {:induction false} CollapseHalvesRuns(k: nat, rest: string)
    requires rest == "" || rest[0] != '/'
    ensures Collapse(Slashes(2 * k) + rest) == Slashes(k) + Collapse(rest)
    ensures Collapse(Slashes(2 * k + 1) + rest) == Slashes(k + 1) + Collapse(rest)
  {
    if k == 0 {
      assert Slashes(0) + rest == rest && Slashes(0) + Collapse(rest) == Collapse(rest);
      OneSlash(0, rest);
      OneSlash(0, Collapse(rest));
      CollapseSingle(rest);
    } else {
      CollapseHalvesRuns(k - 1, rest);
      CollapseOnePair(2 * k - 2, k - 1, rest);
      CollapseOnePair(2 * k - 1, k, rest);
    }
  }

  lemma CollapseOnePair(n: nat, k: nat, rest: string)
    requires Collapse(Slashes(n) + rest) == Slashes(k) + Collapse(rest)
    ensures Collapse(Slashes(n + 2) + rest) == Slashes(k + 1) + Collapse(rest)
  {
    TwoSlashes(n, rest);
    CollapsePair(Slashes(n) + rest);
    OneSlash(k, Collapse(rest));
  }

  /** And leaves everything else alone. */
  lemma CollapseKeepsOthers(c: char, rest: string)
    requires c != '/'
    ensures Collapse([c] + rest) == [c] + Collapse(rest)
  {
    assert ([c] + rest)[1..] == rest;
  }

  predicate HasDoubleSlash(s: string) {
    exists i :: 0 <= i < |s| - 1 && s[i] == '/' && s[i + 1] == '/'
  }

  /** The segments for which `CreateGroup` ensures a group each. */
  function CreateSegments(path: string): seq<string> { Strings.Split(Collapse(TrimSlashes(path)), '/') }

  /** The key `CreateGroup` computes, by its own normalisation, to find the result in the cache. */
  function CreateKey(path: string): string { Collapse("/" + TrimSlashes(path)) }

  /** The segments that the lookup by path walks. */
  function LookupSegments(path: string): seq<string> { Strings.Split(TrimSlashes(path), '/') }

  /** The path that the segment loop accumulates. */
  function PathText(segments: seq<string>): string {
    if segments == [] then "" else PathText(segments[..|segments| - 1]) + "/" + segments[|segments| - 1]
  }

  lemma {:induction false} PathTextIsJoin(segments: seq<string>)
    requires segments != []
    ensures PathText(segments) == "/" + Strings.Join(segments, '/')
  {
    if |segments| == 1 {
      assert segments[..0] == [];
    } else {
      var init, last := segments[..|segments| - 1], segments[|segments| - 1];
      PathTextIsJoin(init);
      JoinSnoc(init, last);
      assert segments == init + [last];
    }
  }

  lemma {:induction false} JoinSnoc(parts: seq<string>, last: string)
    requires parts != []
    ensures Strings.Join(parts + [last], '/') == Strings.Join(parts, '/') + "/" + last
  {
    if |parts| > 1 {
      JoinSnoc(parts[1..], last);
      assert (parts + [last])[1..] == parts[1..] + [last];
    } else {
      assert (parts + [last])[1..] == [last];
    }
  }

  lemma {:induction false} TrimmedHasNoOuterSlash(s: string)
    ensures var t := TrimSlashes(s); t == "" || (t[0] != '/' && t[|t| - 1] != '/')
    decreases |s|
  {
    if s == "" {
    } else if s[0] == '/' {
      TrimmedHasNoOuterSlash(s[1..]);
    } else if s[|s| - 1] == '/' {
      TrimmedHasNoOuterSlash(s[..|s| - 1]);
    }
  }

  /** The two normalisations agree on every path that names a group: the key looked up in the cache is the last
      path that the segment loop stored there. */
  lemma NormalisationsAgree(path: string)
    requires TrimSlashes(path) != ""
    ensures CreateKey(path) == PathText(CreateSegments(path))
  {
    var t := TrimSlashes(path);
    TrimmedHasNoOuterSlash(path);
    assert ("/" + t)[1..] == t;
    assert Collapse("/" + t) == "/" + Collapse(t);
    PathTextIsJoin(CreateSegments(path));
    Strings.JoinSplit(Collapse(t), '/');
  }

  /** The loop refuses exactly the paths that have nothing but slashes. */
  lemma CreateSegmentsAreEmptyIff(path: string)
    ensures CreateSegments(path) == [""] <==> TrimSlashes(path) == ""
  {
    var t := TrimSlashes(path);
    Strings.JoinSplit(Collapse(t), '/');
  }

  lemma {:induction false} CollapseIsIdentityIff(s: string)
    ensures |Collapse(s)| <= |s|
    ensures Collapse(s) == s <==> !HasDoubleSlash(s)
    ensures HasDoubleSlash(s) ==> |Collapse(s)| < |s|
  {
    if |s| >= 2 && s[0] == '/' && s[1] == '/' {
      CollapseIsIdentityIff(s[2..]);
    } else if s != "" {
      CollapseIsIdentityIff(s[1..]);
      var t := s[1..];
      assert s == [s[0]] + t;
      if HasDoubleSlash(s) {
        var i :| 0 <= i < |s| - 1 && s[i] == '/' && s[i + 1] == '/';
        assert t[i - 1] == '/' && t[i - 1 + 1] == '/';
      }
      if HasDoubleSlash(t) {
        var i :| 0 <= i < |t| - 1 && t[i] == '/' && t[i + 1] == '/';
        assert s[i + 1] == '/' && s[i + 1 + 1] == '/';
      }
    }
  }

  lemma SegmentsAgreeIff(path: string)
    ensures CreateSegments(path) == LookupSegments(path) <==> !HasDoubleSlash(TrimSlashes(path))
  {
    var t := TrimSlashes(path);
    CollapseIsIdentityIff(t);
    Strings.JoinSplit(t, '/');
    Strings.JoinSplit(Collapse(t), '/');
  }

  // ---------------------------------------------------------------- the server's groups

  /** A group: the identifier of its parent (empty at the top level) and its name. */
  datatype Node = Node(parent: string, name: string)

  type Tree = map<string, Node>

  /** Identifiers are not empty, siblings have different names and parents exist. */
  ghost predicate ValidTree(tree: Tree) {
    && "" !in tree
    && (forall a, b :: a in tree && b in tree && tree[a] == tree[b] ==> a == b)
    && (forall a <- tree :: tree[a].parent == "" || tree[a].parent in tree)
  }

  ghost function Lookup(tree: Tree, parent: string, name: string): Option<string> {
    if exists id :: id in tree && tree[id] == Node(parent, name)
    then var id :| id in tree && tree[id] == Node(parent, name); Some(id)
    else None
  }

  /** The group at the end of a path that starts at the top level. */
  ghost function Walk(tree: Tree, segments: seq<string>): Option<string> {
    if segments == [] then Some("")
    else
      var parent := Walk(tree, segments[..|segments| - 1]);
      if parent.None? then None else Lookup(tree, parent.value, segments[|segments| - 1])
  }

  ghost predicate Extends(small: Tree, big: Tree) {
    forall id <- small :: id in big && big[id] == small[id]
  }

  lemma {:induction false} WalkPersists(small: Tree, big: Tree, segments: seq<string>)
    requires ValidTree(big) && Extends(small, big) && Walk(small, segments).Some?
    ensures Walk(big, segments) == Walk(small, segments)
  {
    if segments != [] { WalkPersists(small, big, segments[..|segments| - 1]); }
  }

  /** A group has one path. */
  lemma {:induction false} PathIsUnique(tree: Tree, a: seq<string>, b: seq<string>)
    requires ValidTree(tree) && Walk(tree, a).Some? && Walk(tree, a) == Walk(tree, b)
    ensures a == b
    decreases |a|
  {
    WalkEndsInTree(tree, a);
    WalkEndsInTree(tree, b);
    if a != [] && b != [] {
      var id, x, y := Walk(tree, a).value, a[..|a| - 1], b[..|b| - 1];
      assert tree[id] == Node(Walk(tree, x).value, a[|a| - 1]) == Node(Walk(tree, y).value, b[|b| - 1]);
      PathIsUnique(tree, x, y);
      assert a == x + [a[|a| - 1]] && b == y + [b[|b| - 1]];
    }
  }

  lemma WalkSnoc(tree: Tree, segments: seq<string>, k: nat)
    requires k < |segments|
    ensures Walk(tree, segments[..k + 1]) ==
      (var parent := Walk(tree, segments[..k]);
       if parent.None? then None else Lookup(tree, parent.value, segments[k]))
  {
    assert segments[..k + 1][..k] == segments[..k];
  }

  lemma {:induction false} WalkPrefix(tree: Tree, segments: seq<string>, k: nat)
    requires k <= |segments| && Walk(tree, segments).Some?
    ensures Walk(tree, segments[..k]).Some?
    decreases |segments|
  {
    if k < |segments| {
      WalkPrefix(tree, segments[..|segments| - 1], k);
      assert segments[..|segments| - 1][..k] == segments[..k];
    } else {
      assert segments[..k] == segments;
    }
  }

  /** After the creation, the lookup by path finds the same group exactly when the trimmed path has no double slash. */
  lemma LookupAgreesIff(tree: Tree, path: string)
    requires ValidTree(tree) && Walk(tree, CreateSegments(path)).Some?
    ensures Walk(tree, LookupSegments(path)) == Walk(tree, CreateSegments(path)) <==>
            !HasDoubleSlash(TrimSlashes(path))
  {
    SegmentsAgreeIff(path);
    if Walk(tree, LookupSegments(path)) == Walk(tree, CreateSegments(path)) {
      PathIsUnique(tree, CreateSegments(path), LookupSegments(path));
    }
  }

  lemma ExampleTexts()
    ensures TrimSlashes("/a//b") == "a//b" && CreateSegments("/a//b") == ["a", "b"]
  {
    assert "/a//b"[1..] == "a//b";
    assert TrimSlashes("a//b") == "a//b";
    assert "a//b"[1..] == "//b" && "//b"[2..] == "b" && "b"[1..] == "";
    assert Collapse("b") == "b" && Collapse("//b") == "/b" && Collapse("a//b") == "a/b";
    Strings.SplitWithoutSep("b", '/');
    Strings.SplitAtSep("a", "b", '/');
    assert "a" + ['/'] + "b" == "a/b";
  }

  /** The double slash does make a difference: the group created for this path is not the one the lookup walks to. */
  lemma LookupDisagreesExample()
    ensures var tree := map["1" := Node("", "a"), "2" := Node("1", "b")];
      && ValidTree(tree) && Walk(tree, CreateSegments("/a//b")) == Some("2")
      && Walk(tree, LookupSegments("/a//b")) != Some("2")
  {
    var tree := map["1" := Node("", "a"), "2" := Node("1", "b")];
    ExampleTexts();
    var segments := ["a", "b"];
    assert segments[..0] == [] && segments[..2] == segments;
    WalkSnoc(tree, segments, 0);
    WalkSnoc(tree, segments, 1);
    assert tree["1"] == Node("", "a") && tree["2"] == Node("1", "b");
    assert HasDoubleSlash("a//b") by { assert "a//b"[1] == '/' && "a//b"[1 + 1] == '/'; }
    LookupAgreesIff(tree, "/a//b");
  }

  // ---------------------------------------------------------------- what a creation may add

  /** The groups of `after` that `before` did not have are groups of prefixes of the path that were missing. */
  ghost predicate Grown(before: Tree, after: Tree, segments: seq<string>) {
    && Extends(before, after)
    && (forall id <- after :: id !in before ==> AtMissingPrefix(before, after, segments, id))
  }

  ghost predicate AtMissingPrefix(before: Tree, after: Tree, segments: seq<string>, id: string) {
    exists j :: 1 <= j <= |segments| && Walk(before, segments[..j]).None? && Walk(after, segments[..j]) == Some(id)
  }

  lemma {:induction false} OldGroupHadItsPath(before: Tree, after: Tree, segments: seq<string>)
    requires ValidTree(before) && ValidTree(after) && Extends(before, after)
    requires Walk(after, segments).Some? && (segments == [] || Walk(after, segments).value in before)
    ensures Walk(before, segments) == Walk(after, segments)
  {
    if segments != [] {
      var id, init := Walk(after, segments).value, segments[..|segments| - 1];
      assert before[id] == Node(Walk(after, init).value, segments[|segments| - 1]);
      if init != [] {
        assert Walk(after, init).value in after && Walk(after, init).value != "";
      }
      OldGroupHadItsPath(before, after, init);
    }
  }

  /** A creation that reaches the end of the path adds one new group for each missing prefix, and nothing else. */
  lemma CreationAddsExactlyTheMissing(before: Tree, after: Tree, segments: seq<string>, j: nat)
    requires ValidTree(before) && ValidTree(after) && Grown(before, after, segments)
    requires Walk(after, segments).Some? && 1 <= j <= |segments|
    ensures Walk(after, segments[..j]).Some?
    ensures Walk(before, segments[..j]).None? <==> Walk(after, segments[..j]).value !in before
  {
    WalkPrefix(after, segments, j);
    if Walk(before, segments[..j]).Some? {
      WalkPersists(before, after, segments[..j]);
    } else if Walk(after, segments[..j]).value in before {
      OldGroupHadItsPath(before, after, segments[..j]);
    }
  }

  /** Creating a group that already exists changes nothing. */
  lemma CreationIsIdempotent(before: Tree, after: Tree, segments: seq<string>)
    requires ValidTree(before) && ValidTree(after) && Grown(before, after, segments)
    requires Walk(before, segments).Some?
    ensures after == before && Walk(after, segments) == Walk(before, segments)
  {
    WalkPersists(before, after, segments);
    forall id | id in after ensures id in before {
      if id !in before {
        assert AtMissingPrefix(before, after, segments, id);
        var j :| 1 <= j <= |segments| && Walk(before, segments[..j]).None?;
        WalkPrefix(before, segments, j);
      }
    }
  }

  lemma GrownByOne(before: Tree, middle: Tree, segments: seq<string>, k: nat, id: string)
    requires ValidTree(before) && ValidTree(middle) && Grown(before, middle, segments) && k < |segments|
    requires Walk(middle, segments[..k]).Some? && Lookup(middle, Walk(middle, segments[..k]).value, segments[k]).None?
    requires id != "" && id !in middle
    ensures var after := middle[id := Node(Walk(middle, segments[..k]).value, segments[k])];
      && ValidTree(after) && Grown(before, after, segments) && Extends(middle, after)
      && Walk(after, segments[..k + 1]) == Some(id)
  {
    var parent := Walk(middle, segments[..k]).value;
    var after := middle[id := Node(parent, segments[k])];
    assert parent == "" || parent in middle by { WalkEndsInTree(middle, segments[..k]); }
    assert ValidTree(after);
    WalkPersists(middle, after, segments[..k]);
    WalkSnoc(after, segments, k);
    WalkSnoc(middle, segments, k);
    if Walk(before, segments[..k + 1]).Some? { WalkPersists(before, middle, segments[..k + 1]); }
    forall x | x in after && x !in before ensures AtMissingPrefix(before, after, segments, x) {
      if x != id { MissingPrefixPersists(before, middle, after, segments, x); }
    }
  }

  lemma MissingPrefixPersists(before: Tree, middle: Tree, after: Tree, segments: seq<string>, id: string)
    requires ValidTree(middle) && ValidTree(after) && Extends(middle, after)
    requires AtMissingPrefix(before, middle, segments, id)
    ensures AtMissingPrefix(before, after, segments, id)
  {
    var j :| 1 <= j <= |segments| && Walk(before, segments[..j]).None? && Walk(middle, segments[..j]) == Some(id);
    WalkPersists(middle, after, segments[..j]);
  }

  lemma WalkEndsInTree(tree: Tree, segments: seq<string>)
    requires Walk(tree, segments).Some?
    ensures segments == [] || Walk(tree, segments).value in tree
    ensures segments == [] ==> Walk(tree, segments).value == ""
  {
  }

  // ---------------------------------------------------------------- the client

  datatype Reply = Created(id: string) | Conflict | Failed

  datatype Error = InvalidPath | RequestFailed

  datatype Result = Ok(id: string) | Err(error: Error)

  /** The cached identifier of a path is the identifier of the group at that path. */
  ghost predicate CacheOk(tree: Tree, cache: map<string, string>) {
    forall path <- cache :: path != "" && Walk(tree, Strings.Split(path[1..], '/')) == Some(cache[path])
  }

  lemma CachePersists(small: Tree, big: Tree, cache: map<string, string>)
    requires ValidTree(big) && Extends(small, big) && CacheOk(small, cache)
    ensures CacheOk(big, cache)
  {
    forall path | path in cache ensures Walk(big, Strings.Split(path[1..], '/')) == Some(cache[path]) {
      WalkPersists(small, big, Strings.Split(path[1..], '/'));
    }
  }

  lemma SegmentsOfPathText(segments: seq<string>)
    requires segments != [] && forall i :: 0 <= i < |segments| ==> '/' !in segments[i]
    ensures PathText(segments) != "" && Strings.Split(PathText(segments)[1..], '/') == segments
  {
    PathTextIsJoin(segments);
    assert PathText(segments)[1..] == Strings.Join(segments, '/');
    Strings.SplitJoin(segments, '/');
  }

  lemma CacheLearns(tree: Tree, cache: map<string, string>, segments: seq<string>, id: string)
    requires segments != [] && forall i :: 0 <= i < |segments| ==> '/' !in segments[i]
    requires CacheOk(tree, cache) && Walk(tree, segments) == Some(id)
    ensures CacheOk(tree, cache[PathText(segments) := id])
    ensures PathText(segments) in cache ==> cache[PathText(segments)] == id
  {
    SegmentsOfPathText(segments);
  }

  lemma CachedIsWalked(tree: Tree, cache: map<string, string>, segments: seq<string>)
    requires segments != [] && forall i :: 0 <= i < |segments| ==> '/' !in segments[i]
    requires CacheOk(tree, cache) && PathText(segments) in cache
    ensures Walk(tree, segments) == Some(cache[PathText(segments)])
  {
    SegmentsOfPathText(segments);
  }

  /** The client, with the organization's groups as the server holds them.  `supply` gives the identifiers the server
      will assign and `fails` tells which requests fail for other reasons than a conflict. */
  class Client {
    var tree: Tree
    var requests: nat
    var created: nat
    const supply: nat -> string
    const fails: nat -> bool

    constructor (tree: Tree, supply: nat -> string, fails: nat -> bool)
      requires ValidTree(tree) && FreshFrom(tree, supply, 0)
      ensures Valid() && this.tree == tree && this.fails == fails
    {
      this.tree, this.supply, this.fails := tree, supply, fails;
      requests, created := 0, 0;
    }

    ghost predicate Valid()
      reads this
    {
      ValidTree(tree) && FreshFrom(tree, supply, created)
    }

    /** Some request since then failed for another reason than a conflict. */
    ghost predicate FailedSince(start: nat)
      reads this
    {
      exists n :: start <= n < requests && fails(n)
    }

    /** Asks the server to create a group. */
    method Create(name: string, parent: string) returns (reply: Reply)
      requires Valid() && (parent == "" || parent in tree)
      modifies this
      ensures requests == old(requests) + 1 && (reply == Failed <==> fails(old(requests)))
      ensures reply == Conflict ==> tree == old(tree) && Lookup(tree, parent, name).Some?
      ensures reply == Failed ==> tree == old(tree)
      ensures reply.Created? ==> reply.id != "" && reply.id !in old(tree) && Lookup(old(tree), parent, name).None?
      ensures reply.Created? ==> tree == old(tree)[reply.id := Node(parent, name)]
      ensures Valid()
    {
      requests := requests + 1;
      if fails(requests - 1) { return Failed; }
      if exists id <- tree :: tree[id] == Node(parent, name) { return Conflict; }
      var id := supply(created);
      created := created + 1;
      tree := tree[id := Node(parent, name)];
      return Created(id);
    }

    /** The children of a group in the order in which the server lists them, which can be any. */
    method List(parent: string) returns (groups: seq<string>)
      requires Valid()
      ensures forall i :: 0 <= i < |groups| ==> groups[i] in tree && tree[groups[i]].parent == parent
      ensures forall id <- tree :: tree[id].parent == parent ==> id in groups
    {
      groups := [];
      var pending := tree.Keys;
      while pending != {}
        invariant pending <= tree.Keys
        invariant forall i :: 0 <= i < |groups| ==> groups[i] in tree && tree[groups[i]].parent == parent
        invariant forall id <- tree.Keys - pending :: tree[id].parent == parent ==> id in groups
        decreases pending
      {
        var id :| id in pending;
        if tree[id].parent == parent { groups := groups + [id]; }
        pending := pending - {id};
      }
    }

    /** Finds a child by name among the listed groups. */
    method GetGroupIDByName(parent: string, name: string) returns (found: Option<string>, failed: bool)
      requires Valid()
      modifies this`requests
      ensures requests == old(requests) + 1 && failed == fails(old(requests))
      ensures failed ==> found == None
      ensures !failed ==> found == Lookup(tree, parent, name)
      ensures Valid()
    {
      requests := requests + 1;
      failed := fails(requests - 1);
      if failed { return None, true; }
      var groups := List(parent);
      for i := 0 to |groups|
        invariant forall k :: 0 <= k < i ==> tree[groups[k]].name != name
      {
        if tree[groups[i]].name == name {
          assert tree[groups[i]] == Node(parent, name);
          return Some(groups[i]), false;
        }
      }
      return None, false;
    }

    /** The group of one segment is created, or looked up when it already exists. */
    method EnsureSegment(segments: seq<string>, k: nat, parent: string, ghost before: Tree)
      returns (id: Option<string>)
      requires Valid() && k < |segments| && Walk(tree, segments[..k]) == Some(parent)
      requires ValidTree(before) && Grown(before, tree, segments)
      modifies this
      ensures Valid() && Extends(old(tree), tree) && Grown(before, tree, segments)
      ensures id.Some? ==> Walk(tree, segments[..k + 1]) == id
      ensures requests >= old(requests) && (id.None? ==> FailedSince(old(requests)))
    {
      WalkEndsInTree(tree, segments[..k]);
      WalkSnoc(tree, segments, k);
      ghost var middle := tree;
      var reply := Create(segments[k], parent);
      match reply
      case Created(newId) =>
        GrownByOne(before, middle, segments, k, newId);
        id := Some(newId);
      case Conflict =>
        var failed;
        id, failed := GetGroupIDByName(parent, segments[k]);
      case Failed =>
        id := None;
    }

    /** The segment loop has ensured the groups of the first segments and is at the last of them. */
    ghost predicate Reached(before: Tree, segments: seq<string>, k: nat, cache: map<string, string>, id: string)
      requires k <= |segments|
      reads this
    {
      && Valid() && CacheOk(tree, cache) && Grown(before, tree, segments) && Walk(tree, segments[..k]) == Some(id)
      && (k > 0 ==> PathText(segments[..k]) in cache && cache[PathText(segments[..k])] == id)
    }

    /** One round of the segment loop. */
    method NextSegment(segments: seq<string>, k: nat, currentPath: string, known: map<string, string>, parent: string,
                       ghost before: Tree)
      returns (id: Option<string>, cache: map<string, string>)
      requires k < |segments| && forall i :: 0 <= i < |segments| ==> '/' !in segments[i]
      requires currentPath == PathText(segments[..k + 1])
      requires ValidTree(before) && Reached(before, segments, k, known, parent)
      modifies this
      ensures id.Some? ==> Reached(before, segments, k + 1, cache, id.value)
      ensures requests >= old(requests)
      ensures id.None? ==>
        FailedSince(old(requests)) && Valid() && CacheOk(tree, cache) && Grown(before, tree, segments)
    {
      cache := known;
      if currentPath in cache {
        CachedIsWalked(tree, cache, segments[..k + 1]);
        return Some(cache[currentPath]), cache;
      }
      id := EnsureSegment(segments, k, parent, before);
      CachePersists(old(tree), tree, cache);
      if id.Some? {
        CacheLearns(tree, cache, segments[..k + 1], id.value);
        cache := cache[currentPath := id.value];
      }
    }

    /** The segment loop: ensures one group per segment, from the top level down. */
    method EnsureSegments(segments: seq<string>, known: map<string, string>)
      returns (failed: bool, cache: map<string, string>)
      requires segments != [] && forall i :: 0 <= i < |segments| ==> '/' !in segments[i]
      requires Valid() && CacheOk(tree, known)
      modifies this
      ensures Valid() && CacheOk(tree, cache) && Grown(old(tree), tree, segments)
      ensures failed ==> FailedSince(old(requests))
      ensures !failed ==> PathText(segments) in cache && Walk(tree, segments) == Some(cache[PathText(segments)])
    {
      cache := known;
      var currentPath, parentID := "", "";
      for k := 0 to |segments|
        invariant currentPath == PathText(segments[..k])
        invariant Reached(old(tree), segments, k, cache, parentID) && requests >= old(requests)
      {
        currentPath := currentPath + "/" + segments[k];
        assert segments[..k + 1][..k] == segments[..k];
        var id;
        id, cache := NextSegment(segments, k, currentPath, cache, parentID, old(tree));
        if id.None? { return true, cache; }
        parentID := id.value;
      }
      assert segments[..|segments|] == segments;
      failed := false;
    }

    /** Normalises the path and ensures the groups of its segments. */
    method EnsureGroupHierarchy(groupPath: string, known: map<string, string>)
      returns (error: Option<Error>, cache: map<string, string>)
      requires Valid() && CacheOk(tree, known)
      modifies this
      ensures Valid() && CacheOk(tree, cache) && Grown(old(tree), tree, CreateSegments(groupPath))
      ensures error == Some(InvalidPath) <==> TrimSlashes(groupPath) == ""
      ensures error == Some(InvalidPath) ==> tree == old(tree)
      ensures error == Some(RequestFailed) ==> FailedSince(old(requests))
      ensures error.None? ==> PathText(CreateSegments(groupPath)) in cache
      ensures error.None? ==>
        Walk(tree, CreateSegments(groupPath)) == Some(cache[PathText(CreateSegments(groupPath))])
    {
      var segments := CreateSegments(groupPath);
      CreateSegmentsAreEmptyIff(groupPath);
      if |segments| == 1 && segments[0] == "" { return Some(InvalidPath), known; }
      Strings.SplitPartsHaveNoSep(Collapse(TrimSlashes(groupPath)), '/');
      var failed;
      failed, cache := EnsureSegments(segments, known);
      error := if failed then Some(RequestFailed) else None;
    }

    /** Creates a group and the missing groups above it.  The identifier is always found in the cache. */
    method CreateGroup(groupPath: string) returns (result: Result)
      requires Valid()
      modifies this
      ensures Valid() && Grown(old(tree), tree, CreateSegments(groupPath))
      ensures result.Ok? ==> Walk(tree, CreateSegments(groupPath)) == Some(result.id)
      ensures result == Err(InvalidPath) <==> TrimSlashes(groupPath) == ""
      ensures result == Err(RequestFailed) ==> FailedSince(old(requests))
    {
      var error, cache := EnsureGroupHierarchy(groupPath, map[]);
      if error.Some? { return Err(error.value); }
      NormalisationsAgree(groupPath);
      return Ok(cache[CreateKey(groupPath)]);
    }

    /** Looks a group up by walking down its path. */
    method GetGroupIDByPath(groupPath: string) returns (id: Option<string>, failed: bool)
      requires Valid()
      modifies this`requests
      ensures Valid()
      ensures failed ==> id == None && FailedSince(old(requests))
      ensures !failed && TrimSlashes(groupPath) == "" ==> id == None
      ensures !failed && TrimSlashes(groupPath) != "" ==> id == Walk(tree, LookupSegments(groupPath))
    {
      if TrimSlashes(groupPath) == "" { return None, false; }
      var segments := LookupSegments(groupPath);
      var current := "";
      for k := 0 to |segments|
        invariant Valid() && Walk(tree, segments[..k]) == Some(current) && requests >= old(requests)
      {
        WalkSnoc(tree, segments, k);
        id, failed := GetGroupIDByName(current, segments[k]);
        if id.None? {
          if !failed && k + 1 < |segments| && Walk(tree, segments).Some? { WalkPrefix(tree, segments, k + 1); }
          assert segments[..|segments|] == segments;
          return;
        }
        current := id.value;
      }
      assert segments[..|segments|] == segments;
      return Some(current), false;
    }
  }

  /** The identifiers that the server has not assigned yet are new, not empty and all different. */
  ghost predicate FreshFrom(tree: Tree, supply: nat -> string, n: nat) {
    && (forall i: nat :: i >= n ==> supply(i) != "" && supply(i) !in tree)
    && (forall i: nat, j: nat :: n <= i < j ==> supply(i) != supply(j))
  }
}
