/** The order in which a module's classes are created: superclasses first. */
module ClassOrder {

  type Name = string

  /** Which class each class names as its superclass. */
  type Superclasses = Name -> Name

  /** A class can be created once its superclass has been, or is not one of the module's. */
  predicate Available(supers: Superclasses, moduleNames: set<Name>, created: set<Name>, name: Name) {
    supers(name) !in moduleNames || supers(name) in created
  }

  /** Every class comes after its superclass, if that is the module's. */
  predicate InOrder(supers: Superclasses, moduleNames: set<Name>, first: Name, names: seq<Name>) {
    forall i :: 0 <= i < |names| ==> Available(supers, moduleNames, {first} + Elements(names[..i]), names[i])
  }

  /** That is, its superclass is of another module, or the first class, or earlier. */
  lemma InOrderExactly(supers: Superclasses, moduleNames: set<Name>, first: Name, names: seq<Name>)
    ensures InOrder(supers, moduleNames, first, names)
      <==> forall i :: 0 <= i < |names| ==>
             supers(names[i]) !in moduleNames || supers(names[i]) == first
             || exists j :: 0 <= j < i && names[j] == supers(names[i])
  {
    forall i | 0 <= i < |names|
      ensures Available(supers, moduleNames, {first} + Elements(names[..i]), names[i])
        <==> supers(names[i]) !in moduleNames || supers(names[i]) == first
             || exists j :: 0 <= j < i && names[j] == supers(names[i])
    {
      if j :| 0 <= j < i && names[j] == supers(names[i]) {
        assert names[..i][j] in names[..i];
      }
    }
  }

  function Elements(names: seq<Name>): (s: set<Name>)
    ensures forall x :: x in s <==> x in names
  {
    set x | x in names
  }

  /** Classes whose superclasses are all among themselves: a cycle, and what hangs from it. */
  ghost predicate Cyclic(supers: Superclasses, names: set<Name>) {
    names != {} && forall x :: x in names ==> supers(x) in names
  }

  /** One pass over the classes left: what it adds, and what it leaves, in the same order. */
  method Pass(supers: Superclasses, moduleNames: set<Name>, first: Name, start: seq<Name>, remaining: seq<Name>)
    returns (sorted: seq<Name>, left: seq<Name>)
    requires InOrder(supers, moduleNames, first, start)
    ensures InOrder(supers, moduleNames, first, sorted)
    ensures multiset(sorted) + multiset(left) == multiset(start) + multiset(remaining)
    ensures |left| <= |remaining|
    ensures |left| == |remaining| ==>
      sorted == start && left == remaining
      && forall x :: x in remaining ==> !Available(supers, moduleNames, {first} + Elements(start), x)
  {
    sorted, left := start, [];
    for i := 0 to |remaining|
      invariant InOrder(supers, moduleNames, first, sorted)
      invariant multiset(sorted) + multiset(left) == multiset(start) + multiset(remaining[..i])
      invariant |left| <= i
      invariant |left| == i ==>
        sorted == start && left == remaining[..i]
        && forall x :: x in remaining[..i] ==> !Available(supers, moduleNames, {first} + Elements(start), x)
    {
      assert remaining[..i + 1] == remaining[..i] + [remaining[i]];
      assert multiset(remaining[..i + 1]) == multiset(remaining[..i]) + multiset{remaining[i]};
      OneMore(multiset(sorted), multiset(left), multiset(start), multiset(remaining[..i]), remaining[i]);
      if Available(supers, moduleNames, {first} + Elements(sorted), remaining[i]) {
        Extended(supers, moduleNames, first, sorted, remaining[i]);
        assert multiset(sorted + [remaining[i]]) == multiset(sorted) + multiset{remaining[i]};
        sorted := sorted + [remaining[i]];
      } else {
        assert multiset(left + [remaining[i]]) == multiset(left) + multiset{remaining[i]};
        left := left + [remaining[i]];
      }
    }
    assert remaining[..|remaining|] == remaining;
  }

  lemma OneMore(a: multiset<Name>, b: multiset<Name>, c: multiset<Name>, d: multiset<Name>, x: Name)
    requires a + b == c + d
    ensures a + multiset{x} + b == c + (d + multiset{x}) && a + (b + multiset{x}) == c + (d + multiset{x})
  {
    assert a + multiset{x} + b == a + b + multiset{x};
    assert a + (b + multiset{x}) == a + b + multiset{x};
    assert c + (d + multiset{x}) == c + d + multiset{x};
  }

  lemma Extended(supers: Superclasses, moduleNames: set<Name>, first: Name, names: seq<Name>, x: Name)
    requires InOrder(supers, moduleNames, first, names) && Available(supers, moduleNames, {first} + Elements(names), x)
    ensures InOrder(supers, moduleNames, first, names + [x])
  {
    var all := names + [x];
    forall i | 0 <= i < |all| ensures Available(supers, moduleNames, {first} + Elements(all[..i]), all[i]) {
      assert all[..i] == names[..i];
      assert names[..|names|] == names;
    }
  }

  /** A set of classes with all its superclasses inside, none of them the first, stays out of
      every sequence in order. */
  lemma {:induction false} CycleStaysOut(supers: Superclasses, moduleNames: set<Name>, first: Name, names: seq<Name>,
                                         cycle: set<Name>, i: nat)
    requires InOrder(supers, moduleNames, first, names) && Cyclic(supers, cycle) && cycle <= moduleNames
    requires first !in cycle
    requires i < |names|
    ensures names[i] !in cycle
  {
    if names[i] in cycle {
      assert supers(names[i]) in names[..i];
      var j :| 0 <= j < i && names[j] == supers(names[i]);
      CycleStaysOut(supers, moduleNames, first, names, cycle, j);
    }
  }

  /** The classes in order, and what is left when no pass adds any more, then taken as it comes.
      Nothing is left exactly when no set of the classes has all its superclasses in itself. */
  method Sort(supers: Superclasses, newClassNames: seq<Name>, moduleClassName: Name)
    returns (sorted: seq<Name>, ghost ordered: nat)
    ensures multiset(sorted) == multiset(Others(newClassNames, moduleClassName))
    ensures ordered <= |sorted| && InOrder(supers, Elements(newClassNames), moduleClassName, sorted[..ordered])
    ensures ordered == |sorted|
      <==> !exists cycle :: cycle <= Elements(newClassNames) - {moduleClassName} && Cyclic(supers, cycle)
  {
    var moduleNames := Elements(newClassNames);
    var remaining := Others(newClassNames, moduleClassName);
    ghost var all := remaining;
    sorted := [];
    while remaining != []
      invariant InOrder(supers, moduleNames, moduleClassName, sorted)
      invariant multiset(sorted) + multiset(remaining) == multiset(all)
      decreases |remaining|
    {
      var left: seq<Name>;
      ghost var before := sorted;
      sorted, left := Pass(supers, moduleNames, moduleClassName, sorted, remaining);
      if |left| == |remaining| {
        ordered := |sorted|;
        StuckIsCyclic(supers, newClassNames, moduleClassName, sorted, remaining);
        assert (sorted + remaining)[..ordered] == sorted;
        sorted := sorted + remaining;
        return;
      }
      remaining := left;
    }
    ordered := |sorted|;
    assert sorted[..ordered] == sorted;
    OrderedIsAcyclic(supers, newClassNames, moduleClassName, sorted);
  }

  function Others(names: seq<Name>, first: Name): (r: seq<Name>)
    ensures forall x :: x in r <==> x in names && x != first
  {
    if names == [] then [] else (if names[0] != first then [names[0]] else []) + Others(names[1..], first)
  }

  /** All the classes as often as they are named, but the first, which is there already. */
  lemma {:induction false} OthersAre(names: seq<Name>, first: Name, x: Name)
    ensures multiset(Others(names, first))[x] == if x == first then 0 else multiset(names)[x]
  {
    if names != [] {
      OthersAre(names[1..], first, x);
      assert names == [names[0]] + names[1..];
    }
  }

  lemma StuckIsCyclic(supers: Superclasses, names: seq<Name>, first: Name, sorted: seq<Name>, remaining: seq<Name>)
    requires remaining != [] && multiset(sorted) + multiset(remaining) == multiset(Others(names, first))
    requires forall x :: x in remaining ==> !Available(supers, Elements(names), {first} + Elements(sorted), x)
    ensures Elements(remaining) <= Elements(names) - {first} && Cyclic(supers, Elements(remaining))
  {
    hide Others, Elements;
    SameElements(sorted, remaining, Others(names, first));
    assert remaining[0] in Elements(remaining);
  }

  lemma SameElements(a: seq<Name>, b: seq<Name>, c: seq<Name>)
    requires multiset(a) + multiset(b) == multiset(c)
    ensures forall x :: x in c <==> x in a || x in b
  {
    forall x ensures x in c <==> x in a || x in b {
      assert x in c <==> x in multiset(c);
      assert x in a <==> x in multiset(a);
      assert x in b <==> x in multiset(b);
    }
  }

  lemma OrderedIsAcyclic(supers: Superclasses, names: seq<Name>, first: Name, sorted: seq<Name>)
    requires InOrder(supers, Elements(names), first, sorted) && multiset(sorted) == multiset(Others(names, first))
    ensures !exists cycle :: cycle <= Elements(names) - {first} && Cyclic(supers, cycle)
  {
    if cycle :| cycle <= Elements(names) - {first} && Cyclic(supers, cycle) {
      var x :| x in cycle;
      assert x in Elements(names) - {first};
      assert x in Others(names, first);
      assert x in multiset(Others(names, first));
      assert x in sorted;
      var i :| 0 <= i < |sorted| && sorted[i] == x;
      forall c | c in cycle ensures c in Elements(names) {
        assert c in Elements(names) - {first};
      }
      CycleStaysOut(supers, Elements(names), first, sorted, cycle, i);
      assert false;
    }
  }
}
