/** Where variables live once the scopes are known, and what a closure takes with it: every
    reference reaches its declaration's cell as long as nested blocks agree on the numbers of
    the environments they share. */
module Closures {
  import opened Scopes

  type Oop = nat

  // ---- the layout of a block's environment

  function Place(xs: seq<nat>, x: nat): (i: nat)
    requires x in xs
    ensures i < |xs| && xs[i] == x && x !in xs[..i]
  {
    if xs[0] == x then 0 else
      var i := Place(xs[1..], x) + 1;
      assert xs[..i] == [xs[0]] + xs[1..][..i - 1];
      i
  }

  function ReceiverSize(z: State, s: nat): nat
    requires s < |z.selves|
  {
    if z.selves[s] then 1 else 0
  }

  /** The number of a captured environment among a block's slots. */
  function EnvironmentIndex(p: Program, z: State, s: nat, e: nat): nat
    requires Shaped(p, z) && s < |p| && e in z.environments[s]
  {
    Place(z.environments[s], e) + 1 + ReceiverSize(z, s)
  }

  function Arguments(p: Program, s: nat, xs: seq<Name>): (r: seq<Name>)
    requires s < |p|
    ensures |r| <= |xs|
    ensures forall x ::
      x in r <==> x in xs && ScriptDefining(p, s, x).Some? && !IsTemporary(p, ScriptDefining(p, s, x).value, x)
  {
    if xs == [] then [] else
    var d := ScriptDefining(p, s, xs[0]);
    (if d.Some? && !IsTemporary(p, d.value, xs[0]) then [xs[0]] else []) + Arguments(p, s, xs[1..])
  }

  function CapturedArguments(p: Program, z: State, s: nat): (r: seq<Name>)
    requires Shaped(p, z) && s < |p|
  {
    Arguments(p, s, z.captured[s])
  }

  /** How many slots come before the captured arguments, and before a block's own temporaries. */
  function SizeUpToEnvironments(p: Program, z: State, s: nat): nat
    requires Shaped(p, z) && s < |p|
  {
    ReceiverSize(z, s) + |z.environments[s]|
  }

  function CapturedSize(p: Program, z: State, s: nat): nat
    requires Shaped(p, z) && s < |p|
  {
    if s == 0 then 0 else SizeUpToEnvironments(p, z, s) + |CapturedArguments(p, z, s)|
  }

  function ArgumentSlot(p: Program, z: State, s: nat, x: Name): nat
    requires Shaped(p, z) && s < |p| && x in CapturedArguments(p, z, s)
  {
    SizeUpToEnvironments(p, z, s) + Place(CapturedArguments(p, z, s), x) + 1
  }

  // ---- the positions of declarations

  type Positions = map<(nat, Name), nat>

  /** Whether a declaration has a cell of its real script's frame or environment; arguments of
      real scripts stay where the caller pushed them. */
  predicate HasCell(p: Program, d: nat, x: Name)
    requires d < |p|
  {
    IsTemporary(p, d, x) || (p[d].inlined && x in p[d].arguments)
  }

  /** The locals of the first scripts are within the sizes reached, and no two of a real script
      share a cell. */
  ghost predicate Apart(p: Program, z: State, at: Positions, stackSizes: seq<nat>, envSizes: seq<nat>)
    requires Shaped(p, z) && |stackSizes| == |envSizes| == |p|
  {
    && (forall l :: l in at ==> l.0 < |p| && 1 <= at[l])
    && (forall l :: l in at && HasCell(p, l.0, l.1) ==>
      if l in z.inArray then CapturedSize(p, z, RealScript(p, l.0)) < at[l] <= envSizes[RealScript(p, l.0)]
      else at[l] <= stackSizes[RealScript(p, l.0)])
    && (forall l, k :: l in at && k in at && l != k && Together(p, z, l, k) ==> at[l] != at[k])
  }

  /** Every cell up to the sizes reached is some local's: frames and environments have no gaps. */
  ghost predicate Full(p: Program, z: State, at: Positions, stackSizes: seq<nat>, envSizes: seq<nat>)
    requires Shaped(p, z) && |stackSizes| == |envSizes| == |p|
  {
    && (forall r, i {:trigger IsCell(p, z, at, r, i, false)} ::
          0 <= r < |p| && 1 <= i <= stackSizes[r] ==> IsCell(p, z, at, r, i, false))
    && (forall r, i {:trigger IsCell(p, z, at, r, i, true)} ::
          0 <= r < |p| && CapturedSize(p, z, r) < i <= envSizes[r] ==> IsCell(p, z, at, r, i, true))
  }

  ghost predicate IsCell(p: Program, z: State, at: Positions, r: nat, i: nat, inArray: bool)
    requires r < |p|
  {
    exists l :: l in at && l.0 < |p| && HasCell(p, l.0, l.1) && RealScript(p, l.0) == r
                && (l in z.inArray <==> inArray) && at[l] == i
  }

  lemma ApartWithCell(p: Program, z: State, at: Positions, stackSizes: seq<nat>, envSizes: seq<nat>, d: nat, x: Name)
    requires Shaped(p, z) && |stackSizes| == |envSizes| == |p| && Apart(p, z, at, stackSizes, envSizes)
    requires d < |p| && HasCell(p, d, x) && (d, x) !in at
    requires envSizes[RealScript(p, d)] >= CapturedSize(p, z, RealScript(p, d))
    ensures var r := RealScript(p, d);
      if (d, x) in z.inArray then
        Apart(p, z, at[(d, x) := envSizes[r] + 1], stackSizes, envSizes[r := envSizes[r] + 1])
      else
        Apart(p, z, at[(d, x) := stackSizes[r] + 1], stackSizes[r := stackSizes[r] + 1], envSizes)
  {
    hide HasCell, CapturedSize;
  }

  /** One more local with a cell. */
  lemma FullWithCell(p: Program, z: State, at: Positions, stackSizes: seq<nat>, envSizes: seq<nat>, d: nat, x: Name)
    requires Shaped(p, z) && |stackSizes| == |envSizes| == |p| && Full(p, z, at, stackSizes, envSizes)
    requires d < |p| && HasCell(p, d, x) && (d, x) !in at
    ensures var r := RealScript(p, d);
      if (d, x) in z.inArray then
        Full(p, z, at[(d, x) := envSizes[r] + 1], stackSizes, envSizes[r := envSizes[r] + 1])
      else
        Full(p, z, at[(d, x) := stackSizes[r] + 1], stackSizes[r := stackSizes[r] + 1], envSizes)
  {
    hide HasCell, CapturedSize;
    var r, b := RealScript(p, d), (d, x) in z.inArray;
    var size := if b then envSizes[r] else stackSizes[r];
    var at' := at[(d, x) := size + 1];
    assert IsCell(p, z, at', r, size + 1, b);
    forall r', i: nat, b' | 0 <= r' < |p| && IsCell(p, z, at, r', i, b')
      ensures IsCell(p, z, at', r', i, b')
    {
      var l :| l in at && l.0 < |p| && HasCell(p, l.0, l.1) && RealScript(p, l.0) == r'
               && (l in z.inArray <==> b') && at[l] == i;
      assert l in at' && at'[l] == i;
    }
  }

  lemma FullWithArgument(p: Program, z: State, at: Positions, stackSizes: seq<nat>, envSizes: seq<nat>, d: nat, x: Name,
                         i: nat)
    requires Shaped(p, z) && |stackSizes| == |envSizes| == |p| && Full(p, z, at, stackSizes, envSizes)
    requires d < |p| && (d, x) !in at
    ensures Full(p, z, at[(d, x) := i], stackSizes, envSizes)
  {
    hide HasCell, CapturedSize;
    var at' := at[(d, x) := i];
    forall r, k: nat, b | 0 <= r < |p| && IsCell(p, z, at, r, k, b)
      ensures IsCell(p, z, at', r, k, b)
    {
      var l :| l in at && l.0 < |p| && HasCell(p, l.0, l.1) && RealScript(p, l.0) == r
               && (l in z.inArray <==> b) && at[l] == k;
      assert l in at' && at'[l] == k;
    }
  }

  /** Two locals with cells in the same frame, or in the same environment. */
  predicate Together(p: Program, z: State, l: (nat, Name), k: (nat, Name))
    requires l.0 < |p| && k.0 < |p|
  {
    && HasCell(p, l.0, l.1) && HasCell(p, k.0, k.1)
    && RealScript(p, l.0) == RealScript(p, k.0) && (l in z.inArray <==> k in z.inArray)
  }

  /** Names are declared once in a script. */
  predicate Distinct(p: Program) {
    forall s :: 0 <= s < |p| ==>
      && NoDuplicates(p[s].temporaries) && NoDuplicates(p[s].arguments)
      && forall x :: x in p[s].temporaries ==> x !in p[s].arguments
  }

  lemma ApartWithArgument(p: Program, z: State, at: Positions, stackSizes: seq<nat>, envSizes: seq<nat>, d: nat,
                          x: Name, i: nat)
    requires Shaped(p, z) && |stackSizes| == |envSizes| == |p| && Apart(p, z, at, stackSizes, envSizes)
    requires d < |p| && !HasCell(p, d, x) && 1 <= i && (d, x) !in at
    ensures Apart(p, z, at[(d, x) := i], stackSizes, envSizes)
  {}

  lemma ApartWithBase(p: Program, z: State, at: Positions, stackSizes: seq<nat>, envSizes: seq<nat>, s: nat, size: nat)
    requires Shaped(p, z) && |stackSizes| == |envSizes| == |p| && Apart(p, z, at, stackSizes, envSizes)
    requires s < |p| && forall l :: l in at ==> l.0 < s
    ensures Apart(p, z, at, stackSizes, envSizes[s := size])
  {
    forall l | l in at ensures RealScript(p, l.0) < s {
      assert RealScript(p, l.0) <= l.0;
    }
  }

  /** Only what is captured, so far. */
  lemma FullWithBase(p: Program, z: State, at: Positions, stackSizes: seq<nat>, envSizes: seq<nat>, s: nat)
    requires Shaped(p, z) && |stackSizes| == |envSizes| == |p| && Full(p, z, at, stackSizes, envSizes) && s < |p|
    ensures Full(p, z, at, stackSizes, envSizes[s := CapturedSize(p, z, s)])
  {
    hide CapturedSize, IsCell;
  }

  /** Of some declarations of one script, later ones have later cells of the same kind, up to the
      sizes reached. */
  ghost predicate InOrder(z: State, at: Positions, d: nat, xs: seq<Name>, stackSize: nat, envSize: nat) {
    && (forall k :: 0 <= k < |xs| ==>
          (d, xs[k]) in at && at[(d, xs[k])] <= if (d, xs[k]) in z.inArray then envSize else stackSize)
    && (forall k, j :: 0 <= k < j < |xs| && ((d, xs[k]) in z.inArray <==> (d, xs[j]) in z.inArray) ==>
          at[(d, xs[k])] < at[(d, xs[j])])
  }

  lemma NoneInOrder(z: State, at: Positions, d: nat, stackSize: nat, envSize: nat)
    ensures InOrder(z, at, d, [], stackSize, envSize)
  {}

  lemma InOrderPush(z: State, at: Positions, d: nat, xs: seq<Name>, x: Name, stackSize: nat, envSize: nat)
    requires InOrder(z, at, d, xs, stackSize, envSize) && x !in xs
    ensures if (d, x) in z.inArray then InOrder(z, at[(d, x) := envSize + 1], d, xs + [x], stackSize, envSize + 1)
      else InOrder(z, at[(d, x) := stackSize + 1], d, xs + [x], stackSize + 1, envSize)
  {
    assert forall k :: 0 <= k < |xs| ==> xs[k] in xs && xs[k] != x;
  }

  class Layout {
    const program: Program
    const scopes: State
    var at: Positions
    var stackSizes: seq<nat>
    var envSizes: seq<nat>

    constructor (p: Program, z: State)
      requires Shaped(p, z)
      ensures program == p && scopes == z && at == map[] && stackSizes == seq(|p|, _ => 0)
      ensures envSizes == seq(|p|, _ => 0) && Valid()
    {
      program, scopes := p, z;
      at := map[];
      stackSizes, envSizes := seq(|p|, _ => 0), seq(|p|, _ => 0);
    }

    ghost predicate Valid()
      reads this
    {
      && Shaped(program, scopes) && |stackSizes| == |envSizes| == |program|
      && Apart(program, scopes, at, stackSizes, envSizes) && Full(program, scopes, at, stackSizes, envSizes)
    }

    /** A cell for a declaration, in its real script's environment or on its stack. */
    method Position(d: nat, x: Name)
      requires Valid() && d < |program| && (d, x) !in at && HasCell(program, d, x)
      requires envSizes[RealScript(program, d)] >= CapturedSize(program, scopes, RealScript(program, d))
      modifies this
      ensures Valid()
      ensures var r := RealScript(program, d);
        if (d, x) in scopes.inArray then
          && stackSizes == old(stackSizes) && envSizes == old(envSizes)[r := old(envSizes)[r] + 1]
          && at == old(at)[(d, x) := envSizes[r]]
        else
          && envSizes == old(envSizes) && stackSizes == old(stackSizes)[r := old(stackSizes)[r] + 1]
          && at == old(at)[(d, x) := stackSizes[r]]
    {
      hide Full, Apart, HasCell, CapturedSize;
      ApartWithCell(program, scopes, at, stackSizes, envSizes, d, x);
      FullWithCell(program, scopes, at, stackSizes, envSizes, d, x);
      var r := RealScript(program, d);
      if (d, x) in scopes.inArray {
        envSizes := envSizes[r := envSizes[r] + 1];
        at := at[(d, x) := envSizes[r]];
      } else {
        stackSizes := stackSizes[r := stackSizes[r] + 1];
        at := at[(d, x) := stackSizes[r]];
      }
    }

    /** Some declarations of one script, in order. */
    method PositionAll(d: nat, xs: seq<Name>)
      requires Valid() && d < |program| && NoDuplicates(xs)
      requires forall x :: x in xs ==> (d, x) !in at && HasCell(program, d, x)
      requires envSizes[RealScript(program, d)] >= CapturedSize(program, scopes, RealScript(program, d))
      modifies this
      ensures Valid() && at.Keys == old(at.Keys) + set x | x in xs :: (d, x)
      ensures |envSizes| == |old(envSizes)| && forall s :: 0 <= s < |envSizes| ==> envSizes[s] >= old(envSizes)[s]
      ensures forall l :: l in old(at) ==> at[l] == old(at)[l]
      ensures InOrder(scopes, at, d, xs, stackSizes[RealScript(program, d)], envSizes[RealScript(program, d)])
    {
      hide Apart, Full, CapturedSize, HasCell, RealScript, InOrder;
      ghost var r := RealScript(program, d);
      NoneInOrder(scopes, at, d, stackSizes[r], envSizes[r]);
      assert xs[..0] == [];
      for i := 0 to |xs|
        invariant Valid() && at.Keys == old(at.Keys) + set x | x in xs[..i] :: (d, x)
        invariant |envSizes| == |old(envSizes)| && forall s :: 0 <= s < |envSizes| ==> envSizes[s] >= old(envSizes)[s]
        invariant forall l :: l in old(at) ==> at[l] == old(at)[l]
        invariant InOrder(scopes, at, d, xs[..i], stackSizes[r], envSizes[r])
      {
        assert xs[i] in xs && xs[i] !in xs[..i];
        InOrderPush(scopes, at, d, xs[..i], xs[i], stackSizes[r], envSizes[r]);
        Position(d, xs[i]);
        assert xs[..i + 1] == xs[..i] + [xs[i]];
      }
      assert xs[..|xs|] == xs;
    }

    /** The arguments of a real script stand where they were pushed. */
    method PositionArguments(d: nat)
      requires Valid() && d < |program| && !program[d].inlined && NoDuplicates(program[d].arguments)
      requires forall x :: x in program[d].arguments ==> (d, x) !in at && !HasCell(program, d, x)
      modifies `at
      ensures Valid() && at.Keys == old(at.Keys) + set x | x in program[d].arguments :: (d, x)
      ensures forall l :: l in old(at) ==> at[l] == old(at)[l]
      ensures forall i :: 0 <= i < |program[d].arguments| ==> at[(d, program[d].arguments[i])] == i + 1
    {
      hide Apart, HasCell, Full;
      var xs := program[d].arguments;
      for i := 0 to |xs|
        invariant Valid() && at.Keys == old(at.Keys) + set x | x in xs[..i] :: (d, x)
        invariant forall l :: l in old(at) ==> at[l] == old(at)[l]
        invariant forall k :: 0 <= k < i ==> (d, xs[k]) in at && at[(d, xs[k])] == k + 1
      {
        assert xs[i] in xs && xs[i] !in xs[..i];
        ApartWithArgument(program, scopes, at, stackSizes, envSizes, d, xs[i], i + 1);
        FullWithArgument(program, scopes, at, stackSizes, envSizes, d, xs[i], i + 1);
        at := at[(d, xs[i]) := i + 1];
        assert xs[..i + 1] == xs[..i] + [xs[i]];
      }
      assert xs[..|xs|] == xs;
    }

    lemma RealBefore(s: nat)
      requires s < |program|
      ensures RealScript(program, s) <= s && !program[RealScript(program, s)].inlined
      ensures !program[s].inlined ==> RealScript(program, s) == s
    {}

    /** A script's locals: what a real block captures comes first in its environment. */
    method PositionScript(s: nat)
      requires Valid() && s < |program| && Distinct(program) && forall l :: l in at ==> l.0 < s
      requires forall k :: 0 <= k < s && !program[k].inlined ==> envSizes[k] >= CapturedSize(program, scopes, k)
      modifies this
      ensures Valid() && at.Keys == old(at.Keys) + set x | x in program[s].temporaries + program[s].arguments :: (s, x)
      ensures |envSizes| == |program|
      ensures forall k :: 0 <= k <= s && !program[k].inlined ==> envSizes[k] >= CapturedSize(program, scopes, k)
      ensures forall l :: l in old(at) ==> at[l] == old(at)[l]
      ensures !program[s].inlined ==>
        forall i :: 0 <= i < |program[s].arguments| ==> at[(s, program[s].arguments[i])] == i + 1
    {
      hide Apart, CapturedSize, Full;
      if !program[s].inlined {
        ApartWithBase(program, scopes, at, stackSizes, envSizes, s, CapturedSize(program, scopes, s));
        FullWithBase(program, scopes, at, stackSizes, envSizes, s);
        envSizes := envSizes[s := CapturedSize(program, scopes, s)];
      }
      RealBefore(s);
      PositionAll(s, program[s].temporaries);
      if program[s].inlined {
        PositionAll(s, program[s].arguments);
      } else {
        PositionArguments(s);
      }
    }

    /** Every declaration gets its position: cells of their own for temporaries and arguments of
        inlined blocks, and their number for the other arguments. */
    method PositionLocals()
      requires Valid() && Distinct(program) && at == map[]
      modifies this
      ensures Valid()
      ensures forall d: nat, x: Name :: d < |program| && Defines(program, d, x) ==> (d, x) in at
      ensures forall d, i :: 0 <= d < |program| && !program[d].inlined && 0 <= i < |program[d].arguments| ==>
        (d, program[d].arguments[i]) in at && at[(d, program[d].arguments[i])] == i + 1
    {
      hide Apart, CapturedSize, Distinct, Full;
      for s := 0 to |program|
        invariant Valid() && forall l :: l in at ==> l.0 < s
        invariant forall k :: 0 <= k < s && !program[k].inlined ==> envSizes[k] >= CapturedSize(program, scopes, k)
        invariant forall d: nat, x: Name :: d < s && Defines(program, d, x) ==> (d, x) in at
        invariant forall d, i :: 0 <= d < s && !program[d].inlined && 0 <= i < |program[d].arguments| ==>
          (d, program[d].arguments[i]) in at && at[(d, program[d].arguments[i])] == i + 1
      {
        PositionScript(s);
      }
    }
  }
}
