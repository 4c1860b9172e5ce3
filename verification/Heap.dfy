/** Objects as the collector sees them, and what is reachable from the roots. */
module Heap {
  import opened Regions

  /** A pointer-sized word: null, a tagged small integer, or the address of an object. */
  datatype Value = Null | Small(n: int) | Ref(at: Address)

  datatype Object = Object(
    behavior: Value,     // position 0
    slots: seq<Value>,   // positions 1..|slots|; the raw body words of a bytes object
    isBytes: bool,
    special: bool,
    remembered: bool,
    seen: bool)
  {
    /** The slots the marker scans on sight. */
    function StrongPointersSize(): nat {
      if isBytes || special then 0 else |slots|
    }

    /** The positions that hold pointers once ephemerons are followed as well. */
    function PointersSize(): nat {
      if isBytes then 0 else |slots|
    }

    /** The behavior is position 0, slots are numbered from 1. */
    function At(i: nat): Value
      requires i <= |slots|
    {
      if i == 0 then behavior else slots[i - 1]
    }

    function Put(i: nat, v: Value): (o: Object)
      requires i <= |slots|
      ensures |o.slots| == |slots| && o.isBytes == isBytes && o.special == special
      ensures o.remembered == remembered && o.seen == seen
    {
      if i == 0 then this.(behavior := v) else this.(slots := slots[i - 1 := v])
    }
  }

  type Memory = map<Address, Object>

  /** What the collector demands of the heap it is given: every pointer leads to an object,
      behaviors are never null, every special object is an ephemeron with a non-null key,
      and nothing is marked yet. */
  ghost predicate WellFormed(m: Memory) {
    forall a :: a in m ==>
      && !m[a].seen
      && !m[a].behavior.Null?
      && (m[a].special ==> !m[a].isBytes && |m[a].slots| > 0 && !m[a].slots[0].Null?)
      && forall i: nat :: i <= m[a].PointersSize() ==> Points(m, m[a].At(i))
  }

  /** Slot by slot: the words of a bytes object may be anything. */
  lemma WellFormedExactly(m: Memory)
    ensures WellFormed(m) <==>
      forall a :: a in m ==>
        && !m[a].seen && !m[a].behavior.Null? && (m[a].behavior.Ref? ==> m[a].behavior.at in m)
        && (m[a].special ==> !m[a].isBytes && m[a].slots != [] && !m[a].slots[0].Null?)
        && (!m[a].isBytes ==> forall v :: v in m[a].slots && v.Ref? ==> v.at in m)
  {
    forall a | a in m
      ensures (forall i: nat :: i <= m[a].PointersSize() ==> Points(m, m[a].At(i)))
        <==> Points(m, m[a].behavior) && (!m[a].isBytes ==> forall v :: v in m[a].slots && v.Ref? ==> v.at in m)
    {
      assert m[a].At(0) == m[a].behavior;
      assert forall k :: 0 <= k < |m[a].slots| ==> m[a].At(k + 1) == m[a].slots[k];
      if forall i: nat :: i <= m[a].PointersSize() ==> Points(m, m[a].At(i)) {
        forall v | !m[a].isBytes && v in m[a].slots && v.Ref?
          ensures v.at in m
        {
          var k :| 0 <= k < |m[a].slots| && m[a].slots[k] == v;
          assert Points(m, m[a].At(k + 1));
        }
      } else {
        var i: nat :| i <= m[a].PointersSize() && !Points(m, m[a].At(i));
        assert i > 0 ==> m[a].At(i) in m[a].slots;
      }
    }
  }

  /** A value that is not dangling. */
  predicate Points(m: Memory, v: Value) {
    v.Ref? ==> v.at in m
  }

  ghost predicate ValidRoots(m: Memory, roots: seq<Value>) {
    forall k :: 0 <= k < |roots| ==> !roots[k].Null? && Points(m, roots[k])
  }

  ghost predicate Edge(m: Memory, a: Address, b: Address) {
    a in m && exists i: nat :: i <= m[a].PointersSize() && m[a].At(i) == Ref(b)
  }

  /** Every object points to its behavior, and all but bytes objects to what is in their slots. */
  lemma EdgesAre(m: Memory, a: Address, b: Address)
    ensures Edge(m, a, b)
      <==> a in m && (m[a].behavior == Ref(b) || (!m[a].isBytes && Ref(b) in m[a].slots))
  {
    if a in m && m[a].behavior == Ref(b) {
      assert m[a].At(0) == Ref(b);
    }
    if a in m && !m[a].isBytes && Ref(b) in m[a].slots {
      var k :| 0 <= k < |m[a].slots| && m[a].slots[k] == Ref(b);
      assert m[a].At(k + 1) == Ref(b);
    }
  }

  /** A chain of pointers that starts at a root. */
  ghost predicate IsPath(m: Memory, roots: seq<Value>, path: seq<Address>) {
    |path| > 0 && Ref(path[0]) in roots
    && forall k :: 0 < k < |path| ==> Edge(m, path[k - 1], path[k])
  }

  ghost predicate Reachable(m: Memory, roots: seq<Value>, a: Address) {
    exists path :: IsPath(m, roots, path) && path[|path| - 1] == a
  }

  lemma RootIsReachable(m: Memory, roots: seq<Value>, a: Address)
    requires Ref(a) in roots
    ensures Reachable(m, roots, a)
  {
    assert IsPath(m, roots, [a]);
  }

  lemma EdgeKeepsReachable(m: Memory, roots: seq<Value>, a: Address, b: Address)
    requires Reachable(m, roots, a) && Edge(m, a, b)
    ensures Reachable(m, roots, b)
  {
    var path :| IsPath(m, roots, path) && path[|path| - 1] == a;
    var longer := path + [b];
    forall k | 0 < k < |longer|
      ensures Edge(m, longer[k - 1], longer[k])
    {
      if k < |path| {
        assert Edge(m, path[k - 1], path[k]);
      }
    }
    assert IsPath(m, roots, longer);
  }

  /** A set with the roots' targets in it, closed under edges, holds everything reachable. */
  lemma {:induction false} ClosedSetHoldsReachable(m: Memory, roots: seq<Value>, closed: set<Address>,
                                                   path: seq<Address>)
    requires IsPath(m, roots, path)
    requires forall b :: Ref(b) in roots ==> b in closed
    requires forall a, b :: a in closed && Edge(m, a, b) ==> b in closed
    ensures path[|path| - 1] in closed
  {
    if |path| > 1 {
      var shorter := path[..|path| - 1];
      forall k | 0 < k < |shorter|
        ensures Edge(m, shorter[k - 1], shorter[k])
      {
        assert Edge(m, path[k - 1], path[k]);
      }
      ClosedSetHoldsReachable(m, roots, closed, shorter);
      assert Edge(m, path[|path| - 2], path[|path| - 1]);
    }
  }

  ghost function ReachableSet(m: Memory, roots: seq<Value>): set<Address> {
    set a | a in m && Reachable(m, roots, a)
  }

  // ---- ephemerons

  /** The key of an ephemeron is an immediate value or an object of the set. */
  ghost predicate KeyIn(o: Object, s: set<Address>)
    requires |o.slots| > 0
  {
    o.slots[0].Small? || (o.slots[0].Ref? && o.slots[0].at in s)
  }

  /** The positions of an object to follow: all its pointers, but only the behavior of an
      ephemeron that was not rescued and whose key is not in the set. */
  ghost function LivePositions(o: Object, rescued: bool, s: set<Address>): nat {
    if o.special && |o.slots| > 0 && !KeyIn(o, s) && !rescued then 0 else o.PointersSize()
  }

  /** Holds the roots' targets and whatever is strongly reachable from its members; the slots
      of an ephemeron count once its key is a member or the ephemeron is rescued. */
  ghost predicate LiveClosed(m: Memory, roots: seq<Value>, rescued: set<Address>, s: set<Address>) {
    && (forall a :: Ref(a) in roots ==> a in s)
    && forall a, i: nat {:trigger m[a].At(i), a in s} ::
         a in s && a in m && i <= LivePositions(m[a], a in rescued, s) && m[a].At(i).Ref? ==> m[a].At(i).at in s
  }

  /** Behaviors are held by all objects, and slots by all but bytes objects and the ephemerons,
      not rescued, whose first slot is neither an immediate value nor a member. */
  lemma LiveClosedExactly(m: Memory, roots: seq<Value>, rescued: set<Address>, s: set<Address>)
    ensures LiveClosed(m, roots, rescued, s)
      <==>
      && (forall a :: Ref(a) in roots ==> a in s)
      && (forall a :: a in s && a in m && m[a].behavior.Ref? ==> m[a].behavior.at in s)
      && (forall a, v :: a in s && a in m && !m[a].isBytes && v in m[a].slots && v.Ref?
            && (!m[a].special || a in rescued || m[a].slots[0].Small?
                || (m[a].slots[0].Ref? && m[a].slots[0].at in s))
            ==> v.at in s)
  {
    if LiveClosed(m, roots, rescued, s) {
      forall a | a in s && a in m && m[a].behavior.Ref?
        ensures m[a].behavior.at in s
      {
        assert m[a].At(0) == m[a].behavior;
      }
      forall a, v | a in s && a in m && !m[a].isBytes && v in m[a].slots && v.Ref?
                    && (!m[a].special || a in rescued || KeyIn(m[a], s))
        ensures v.at in s
      {
        var k :| 0 <= k < |m[a].slots| && m[a].slots[k] == v;
        assert m[a].At(k + 1) == v;
      }
    } else if forall a :: Ref(a) in roots ==> a in s {
      var a, i: nat :| a in s && a in m && i <= LivePositions(m[a], a in rescued, s) && m[a].At(i).Ref?
                       && m[a].At(i).at !in s;
      assert i > 0 ==> m[a].At(i) in m[a].slots;
    }
  }

  /** The least such set: what is alive once these ephemerons have been rescued. */
  ghost function LiveSet(m: Memory, roots: seq<Value>, rescued: set<Address>): set<Address> {
    set a | a in m && forall s: set<Address> :: LiveClosed(m, roots, rescued, s) ==> a in s
  }

  lemma LiveSetIsClosed(m: Memory, roots: seq<Value>, rescued: set<Address>)
    requires WellFormed(m) && ValidRoots(m, roots)
    ensures LiveClosed(m, roots, rescued, LiveSet(m, roots, rescued))
  {
    var live := LiveSet(m, roots, rescued);
    forall a, i: nat | a in live && i <= LivePositions(m[a], a in rescued, live) && m[a].At(i).Ref?
      ensures m[a].At(i).at in live
    {
      assert Points(m, m[a].At(i));
      forall s: set<Address> | LiveClosed(m, roots, rescued, s)
        ensures m[a].At(i).at in s
      {
        assert live <= s;
        assert a in s && i <= LivePositions(m[a], a in rescued, s);
      }
    }
    forall a | Ref(a) in roots
      ensures a in live
    {
      var k :| 0 <= k < |roots| && roots[k] == Ref(a);
      assert Points(m, roots[k]);
    }
  }

  /** Rescuing more keeps alive what was alive. */
  lemma LiveSetGrows(m: Memory, roots: seq<Value>, rescued: set<Address>, more: set<Address>)
    requires rescued <= more
    ensures LiveSet(m, roots, rescued) <= LiveSet(m, roots, more)
  {
    forall a | a in LiveSet(m, roots, rescued)
      ensures a in LiveSet(m, roots, more)
    {
      forall s: set<Address> | LiveClosed(m, roots, more, s)
        ensures a in s
      {
        forall b, i: nat | b in s && b in m && i <= LivePositions(m[b], b in rescued, s) && m[b].At(i).Ref?
          ensures m[b].At(i).at in s
        {
          assert i <= LivePositions(m[b], b in more, s);
        }
        assert LiveClosed(m, roots, rescued, s);
      }
    }
  }

  /** The ephemerons to rescue next: alive, not rescued before, and with a dead key. */
  ghost function Doomed(m: Memory, roots: seq<Value>, rescued: set<Address>): set<Address> {
    var live := LiveSet(m, roots, rescued);
    set a | a in live && a in m && m[a].special && |m[a].slots| > 0 && a !in rescued && !KeyIn(m[a], live)
  }

  /** What was marked when a rescue began, and the ephemerons it rescued. */
  datatype Round = Round(seen: set<Address>, batch: set<Address>)

  ghost function RescuedBy(rounds: seq<Round>): set<Address> {
    if rounds == [] then {} else RescuedBy(rounds[..|rounds| - 1]) + rounds[|rounds| - 1].batch
  }

  /** Each round began with exactly what the rounds before it keep alive marked, and rescued
      exactly the ephemerons in it that were not rescued before and have a dead key. */
  ghost predicate RoundsOk(m: Memory, roots: seq<Value>, rounds: seq<Round>) {
    rounds != [] ==>
      var before, last := rounds[..|rounds| - 1], rounds[|rounds| - 1];
      && RoundsOk(m, roots, before)
      && last.seen == LiveSet(m, roots, RescuedBy(before))
      && last.batch == Doomed(m, roots, RescuedBy(before)) != {}
  }

  /** Rounds in order after which no live ephemeron has a dead key. */
  ghost predicate AllRounds(m: Memory, roots: seq<Value>, rounds: seq<Round>) {
    RoundsOk(m, roots, rounds) && Doomed(m, roots, RescuedBy(rounds)) == {}
  }

  lemma {:induction false} RoundsPrefix(m: Memory, roots: seq<Value>, rounds: seq<Round>, k: nat)
    requires RoundsOk(m, roots, rounds) && k <= |rounds|
    ensures RoundsOk(m, roots, rounds[..k])
    ensures k < |rounds| ==> rounds[k].seen == LiveSet(m, roots, RescuedBy(rounds[..k]))
    ensures k < |rounds| ==> rounds[k].batch == Doomed(m, roots, RescuedBy(rounds[..k])) != {}
  {
    if k == |rounds| {
      assert rounds[..k] == rounds;
    } else if k < |rounds| - 1 {
      var before := rounds[..|rounds| - 1];
      RoundsPrefix(m, roots, before, k);
      assert before[..k] == rounds[..k];
    }
  }

  /** The heap alone decides how many rounds there are and what each of them rescues. */
  lemma RoundsAreDetermined(m: Memory, roots: seq<Value>, rounds: seq<Round>, others: seq<Round>)
    requires AllRounds(m, roots, rounds) && AllRounds(m, roots, others)
    ensures rounds == others
  {
    var n := if |rounds| <= |others| then |rounds| else |others|;
    SamePrefix(m, roots, rounds, others, n);
    RoundsPrefix(m, roots, rounds, n);
    RoundsPrefix(m, roots, others, n);
    assert rounds[..|rounds|] == rounds && others[..|others|] == others;
  }

  lemma {:induction false} SamePrefix(m: Memory, roots: seq<Value>, rounds: seq<Round>, others: seq<Round>, k: nat)
    requires RoundsOk(m, roots, rounds) && RoundsOk(m, roots, others) && k <= |rounds| && k <= |others|
    ensures rounds[..k] == others[..k]
  {
    hide RoundsOk, LiveSet, Doomed, RescuedBy;
    if k > 0 {
      SamePrefix(m, roots, rounds, others, k - 1);
      RoundsPrefix(m, roots, rounds, k - 1);
      RoundsPrefix(m, roots, others, k - 1);
      assert rounds[k - 1] == others[k - 1];
      assert rounds[..k] == rounds[..k - 1] + [rounds[k - 1]];
      assert others[..k] == others[..k - 1] + [others[k - 1]];
    }
  }

  /** Everything reachable, ephemeron slots included, is closed under every pointer. */
  lemma ReachableSetIsClosed(m: Memory, roots: seq<Value>)
    requires WellFormed(m) && ValidRoots(m, roots)
    ensures forall a :: Ref(a) in roots ==> a in ReachableSet(m, roots)
    ensures forall a, i: nat {:trigger m[a].At(i)} ::
      a in ReachableSet(m, roots) && i <= m[a].PointersSize() && m[a].At(i).Ref? ==>
        m[a].At(i).at in ReachableSet(m, roots)
  {
    forall a | Ref(a) in roots
      ensures a in ReachableSet(m, roots)
    {
      var k :| 0 <= k < |roots| && roots[k] == Ref(a);
      assert Points(m, roots[k]);
      RootIsReachable(m, roots, a);
    }
    forall a, i: nat | a in ReachableSet(m, roots) && i <= m[a].PointersSize() && m[a].At(i).Ref?
      ensures m[a].At(i).at in ReachableSet(m, roots)
    {
      assert Points(m, m[a].At(i));
      EdgeKeepsReachable(m, roots, a, m[a].At(i).at);
    }
  }

  /** Whatever is rescued, only reachable objects are alive. */
  lemma LiveIsReachable(m: Memory, roots: seq<Value>, rescued: set<Address>)
    requires WellFormed(m) && ValidRoots(m, roots)
    ensures LiveSet(m, roots, rescued) <= ReachableSet(m, roots)
    ensures LiveClosed(m, roots, rescued, ReachableSet(m, roots))
  {
    ReachableSetIsClosed(m, roots);
    assert LiveClosed(m, roots, rescued, ReachableSet(m, roots));
    forall a | a in LiveSet(m, roots, rescued)
      ensures a in ReachableSet(m, roots)
    {}
  }
}
