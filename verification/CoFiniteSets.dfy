/** Sets given by finitely many inclusions or exclusions (internal/collections/sets.go). */
module CoFiniteSets {

  /** `items` are the elements when the set is finite, and the missing elements when it is infinite. */
  datatype CoSet<T> = CoSet(infinite: bool, items: set<T>)

  predicate Contains<T(==)>(s: CoSet<T>, x: T) {
    if s.infinite then x !in s.items else x in s.items
  }

  ghost predicate Includes<T(!new)>(a: CoSet<T>, b: CoSet<T>) {
    forall x :: Contains(b, x) ==> Contains(a, x)
  }

  ghost predicate SameElements<T(!new)>(a: CoSet<T>, b: CoSet<T>) {
    forall x :: Contains(a, x) <==> Contains(b, x)
  }

  /** Some value of the element type is not among the items. */
  ghost predicate Misses<T(!new)>(items: set<T>) {
    exists x :: x !in items
  }

  /** The element type has more values than any finite set holds. */
  ghost predicate InfiniteType<T(!new)>(sample: CoSet<T>) {
    forall items: set<T> :: Misses(items)
  }

  // ---------------------------------------------------------------- loops over the items

  method NewSet<T(==, !new)>(items: seq<T>) returns (r: CoSet<T>)
    ensures !r.infinite && forall x :: Contains(r, x) <==> x in items
  {
    var result: set<T> := {};
    for i := 0 to |items|
      invariant forall x <- result :: x in items
      invariant forall k :: 0 <= k < i ==> items[k] in result
    {
      result := result + {items[i]};
    }
    r := CoSet(false, result);
  }

  method UnionMaps<T(==)>(a: set<T>, b: set<T>) returns (result: set<T>)
    ensures result == a + b
  {
    result := {};
    var pending := a;
    while pending != {}
      invariant pending <= a && result == a - pending
      decreases pending
    {
      var item :| item in pending;
      result, pending := result + {item}, pending - {item};
    }
    pending := b;
    while pending != {}
      invariant pending <= b && result == a + (b - pending)
      decreases pending
    {
      var item :| item in pending;
      result, pending := result + {item}, pending - {item};
    }
  }

  method IntersectMaps<T(==)>(a: set<T>, b: set<T>) returns (result: set<T>)
    ensures result == a * b
  {
    result := {};
    var pending := a;
    while pending != {}
      invariant pending <= a && result == (a - pending) * b
      decreases pending
    {
      var item :| item in pending;
      if item in b { result := result + {item}; }
      pending := pending - {item};
    }
  }

  method DiffMaps<T(==)>(a: set<T>, b: set<T>) returns (result: set<T>)
    ensures result == a - b
  {
    result := {};
    var pending := a;
    while pending != {}
      invariant pending <= a && result == (a - pending) - b
      decreases pending
    {
      var item :| item in pending;
      if item !in b { result := result + {item}; }
      pending := pending - {item};
    }
  }

  /** All the items of the first are among those of the second, looked up one by one. */
  method AllIn<T(==)>(a: set<T>, b: set<T>) returns (all: bool)
    ensures all <==> a <= b
  {
    var pending := a;
    while pending != {}
      invariant pending <= a && a - pending <= b
      decreases pending
    {
      var item :| item in pending;
      if item !in b { return false; }
      pending := pending - {item};
    }
    return true;
  }

  method NoneIn<T(==)>(a: set<T>, b: set<T>) returns (none: bool)
    ensures none <==> a !! b
  {
    var pending := a;
    while pending != {}
      invariant pending <= a && (a - pending) !! b
      decreases pending
    {
      var item :| item in pending;
      if item in b { return false; }
      pending := pending - {item};
    }
    return true;
  }

  // ---------------------------------------------------------------- the operations mean what they say

  function Negate<T(!new)>(s: CoSet<T>): (r: CoSet<T>)
    ensures forall x :: Contains(r, x) <==> !Contains(s, x)
  {
    CoSet(!s.infinite, s.items)
  }

  method Union<T(==, !new)>(s: CoSet<T>, other: CoSet<T>) returns (r: CoSet<T>)
    ensures forall x :: Contains(r, x) <==> Contains(s, x) || Contains(other, x)
  {
    var items;
    if !s.infinite && !other.infinite {
      items := UnionMaps(s.items, other.items);
      return CoSet(false, items);
    }
    if s.infinite && other.infinite {
      items := IntersectMaps(s.items, other.items);
      return CoSet(true, items);
    }
    if s.infinite && !other.infinite {
      items := DiffMaps(s.items, other.items);
      return CoSet(true, items);
    }
    items := DiffMaps(other.items, s.items);
    return CoSet(true, items);
  }

  method Intersection<T(==, !new)>(s: CoSet<T>, other: CoSet<T>) returns (r: CoSet<T>)
    ensures forall x :: Contains(r, x) <==> Contains(s, x) && Contains(other, x)
  {
    var items;
    if !s.infinite && !other.infinite {
      items := IntersectMaps(s.items, other.items);
      return CoSet(false, items);
    }
    if s.infinite && other.infinite {
      items := UnionMaps(s.items, other.items);
      return CoSet(true, items);
    }
    if s.infinite && !other.infinite {
      items := DiffMaps(other.items, s.items);
      return CoSet(false, items);
    }
    items := DiffMaps(s.items, other.items);
    return CoSet(false, items);
  }

  method Difference<T(==, !new)>(s: CoSet<T>, other: CoSet<T>) returns (r: CoSet<T>)
    ensures forall x :: Contains(r, x) <==> Contains(s, x) && !Contains(other, x)
  {
    r := Intersection(s, Negate(other));
  }

  /** The one case in which the representation does not tell two extensions apart. */
  ghost predicate Covered<T(!new)>(s: CoSet<T>, other: CoSet<T>) {
    forall x :: x in s.items || x in other.items
  }

  /** `Subset` decides inclusion, except that it answers no for an infinite set in a finite one whose items, together,
      are the whole type: that cannot happen when the type is infinite. */
  method Subset<T(==, !new)>(s: CoSet<T>, other: CoSet<T>) returns (sub: bool)
    ensures (sub <==> Includes(other, s)) <==> !(s.infinite && !other.infinite && Covered(s, other))
    ensures InfiniteType(s) ==> (sub <==> Includes(other, s))
  {
    NotCovered(s, other);
    if !s.infinite && !other.infinite {
      sub := AllIn(s.items, other.items);
      if !sub { assert !Includes(other, s) by { var x :| x in s.items && x !in other.items; assert Contains(s, x); } }
    } else if s.infinite && !other.infinite {
      sub := false;
      if !Covered(s, other) { var x :| x !in s.items && x !in other.items; assert Contains(s, x); }
    } else if !s.infinite && other.infinite {
      sub := NoneIn(s.items, other.items);
      if !sub { assert !Includes(other, s) by { var x :| x in s.items && x in other.items; assert Contains(s, x); } }
    } else {
      sub := AllIn(other.items, s.items);
      if !sub { assert !Includes(other, s) by { var x :| x in other.items && x !in s.items; assert Contains(s, x); } }
    }
  }

  lemma NotCovered<T(!new)>(s: CoSet<T>, other: CoSet<T>)
    ensures InfiniteType(s) ==> !Covered(s, other)
  {
    if InfiniteType(s) {
      assert Misses(s.items + other.items);
      var x :| x !in s.items + other.items;
    }
  }

  /** `Equal` decides equality from the sizes and one inclusion, except for a finite and an infinite set whose items
      split the whole type between them: it then answers no, although the elements are the same. */
  method Equal<T(==, !new)>(s: CoSet<T>, other: CoSet<T>) returns (equal: bool)
    ensures (equal <==> SameElements(s, other)) <==>
      !(s.infinite != other.infinite && Covered(s, other) && s.items !! other.items)
    ensures InfiniteType(s) ==> (equal <==> SameElements(s, other))
  {
    NotCovered(s, other);
    if s.infinite != other.infinite {
      MixedEqualIff(s, other);
      return false;
    }
    if s.items != other.items { DifferentItemsDiffer(s, other); }
    if |s.items| != |other.items| { return false; }
    equal := AllIn(s.items, other.items);
    if equal { assert |other.items - s.items| == |other.items| - |s.items| == 0; }
  }

  lemma MixedEqualIff<T(!new)>(s: CoSet<T>, other: CoSet<T>)
    requires s.infinite != other.infinite
    ensures SameElements(s, other) <==> Covered(s, other) && s.items !! other.items
  {
    if !Covered(s, other) {
      var x :| x !in s.items && x !in other.items;
      assert Contains(s, x) != Contains(other, x);
    } else if exists x :: x in s.items && x in other.items {
      var x :| x in s.items && x in other.items;
      assert Contains(s, x) != Contains(other, x);
    }
  }

  lemma DifferentItemsDiffer<T(!new)>(s: CoSet<T>, other: CoSet<T>)
    requires s.infinite == other.infinite && s.items != other.items
    ensures !SameElements(s, other)
  {
    if SameElements(s, other) {
      forall x ensures x in s.items <==> x in other.items {
        assert Contains(s, x) <==> Contains(other, x);
      }
    }
  }

  /** For a type with two values the answers of `Subset` and `Equal` do differ from inclusion and equality. */
  lemma FiniteTypeExample()
    ensures var all, none := CoSet(false, {true, false}), CoSet(true, {});
      && none.infinite && !all.infinite && Covered(none, all) && none.items !! all.items
      && Includes(all, none) && SameElements(all, none)
  {
  }
}
