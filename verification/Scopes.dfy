/** The scopes of a method and its blocks: what each has to capture so that its variables can be
    reached, found out one reference at a time. */
module Scopes {

  type Name = nat

  datatype Option<+T> = None | Some(value: T)

  /** The method is script 0; a block comes after the script it is in. The names of temporaries
      are in the order of a map. */
  datatype Script = Script(parent: nat, inlined: bool, temporaries: seq<Name>, arguments: seq<Name>)

  type Program = p: seq<Script> | IsProgram(p) witness [Script(0, false, [], [])]

  predicate IsProgram(p: seq<Script>) {
    && p != [] && !p[0].inlined
    && forall s :: 0 < s < |p| ==> p[s].parent < s
  }

  predicate Defines(p: Program, s: nat, x: Name)
    requires s < |p|
  {
    x in p[s].temporaries || x in p[s].arguments
  }

  /** The script whose frame an inlined block uses; any other script is its own. */
  function RealScript(p: Program, s: nat): (r: nat)
    requires s < |p|
    ensures r <= s && !p[r].inlined
  {
    if p[s].inlined && s > 0 then RealScript(p, p[s].parent) else s
  }

  function RealParent(p: Program, s: nat): (r: nat)
    requires 0 < s < |p|
    ensures r < s && !p[r].inlined
  {
    RealScript(p, p[s].parent)
  }

  /** The innermost script around a place that defines a name. */
  function ScriptDefining(p: Program, s: nat, x: Name): (d: Option<nat>)
    requires s < |p|
    ensures d.Some? ==> d.value <= s && Defines(p, d.value, x)
  {
    if Defines(p, s, x) then Some(s) else if s == 0 then None else ScriptDefining(p, p[s].parent, x)
  }

  predicate IsTemporary(p: Program, d: nat, x: Name)
    requires d < |p|
  {
    x in p[d].temporaries
  }

  // ---- the state of the scopes

  /** For each script the real scripts whose environments it captures, the names it captures, in
      order, and whether it captures self; and the declarations kept in an environment. */
  datatype State = State(environments: seq<seq<nat>>, captured: seq<seq<Name>>, selves: seq<bool>,
    inArray: set<(nat, Name)>)

  predicate Shaped(p: Program, z: State) {
    |z.environments| == |z.captured| == |z.selves| == |p|
  }

  function Fresh(p: Program): State {
    State(seq(|p|, _ => []), seq(|p|, _ => []), seq(|p|, _ => false), {})
  }

  /** An ordered sequence with one more name. */
  function Inserted(xs: seq<Name>, x: Name): (r: seq<Name>)
    ensures forall y :: y in r <==> y in xs || y == x
    ensures |r| == |xs| + 1
  {
    if xs == [] then [x] else if x < xs[0] then [x] + xs else [xs[0]] + Inserted(xs[1..], x)
  }

  function CaptureEnvironment(p: Program, z: State, s: nat, target: nat): (r: State)
    requires Shaped(p, z) && s < |p|
    ensures Shaped(p, r)
    ensures r == z.(environments := r.environments)
    decreases s
  {
    if s == target || s == 0 || target in z.environments[s] then z
    else
      var z1 := CaptureEnvironment(p, z, RealParent(p, s), target);
      var es := z1.environments[s];
      z1.(environments := z1.environments[s := if target == 0 then [target] + es else es + [target]])
  }

  function CaptureSelf(p: Program, z: State, s: nat): (r: State)
    requires Shaped(p, z) && s < |p|
    ensures Shaped(p, r)
    ensures r == z.(selves := r.selves)
    decreases s
  {
    if z.selves[s] then z
    else
      var z1 := z.(selves := z.selves[s := true]);
      if s == 0 then z1 else CaptureSelf(p, z1, p[s].parent)
  }

  /** The name is captured from the script that has it down to here. */
  function TransferLocal(p: Program, z: State, s: nat, x: Name): (r: State)
    requires Shaped(p, z) && s < |p|
    ensures Shaped(p, r)
    ensures r == z.(captured := r.captured)
    decreases s
  {
    if Defines(p, s, x) || x in z.captured[s] || s == 0 then z
    else
      var z1 := TransferLocal(p, z, p[s].parent, x);
      z1.(captured := z1.captured[s := Inserted(z1.captured[s], x)])
  }

  /** The script that holds the binding a name resolves to: its declaration, or the copy made by
      a real block. An inlined block has the very binding of its parent. */
  function Owner(p: Program, z: State, s: nat, x: Name): (o: Option<nat>)
    requires Shaped(p, z) && s < |p|
    ensures o.Some? ==> o.value <= s
  {
    if Defines(p, s, x) then Some(s)
    else if s == 0 then None
    else if x in z.captured[s] && !p[s].inlined then Some(s)
    else Owner(p, z, p[s].parent, x)
  }

  predicate InArray(p: Program, z: State, o: nat, x: Name)
    requires o < |p|
  {
    !Defines(p, o, x) || (o, x) in z.inArray
  }

  function CaptureTemporary(p: Program, z: State, s: nat, x: Name): (r: State)
    requires Shaped(p, z) && s < |p| && ScriptDefining(p, s, x).Some?
    ensures Shaped(p, r)
  {
    if x in z.captured[s] then z
    else
      var declaration := ScriptDefining(p, s, x).value;
      var z1 := CaptureEnvironment(p, z, RealScript(p, s), RealScript(p, declaration));
      var z2 := TransferLocal(p, z1, s, x);
      var resolved, copy := Owner(p, z, s, x), Owner(p, z2, s, x);
      if copy.Some? && InArray(p, z2, copy.value, x) && resolved.Some? && Defines(p, resolved.value, x) then
        z2.(inArray := z2.inArray + {(resolved.value, x)})
      else z2
  }

  /** A reference to a name from a script. */
  function CaptureLocal(p: Program, z: State, s: nat, x: Name): (r: State)
    requires Shaped(p, z) && s < |p| && ScriptDefining(p, s, x).Some?
    ensures Shaped(p, r)
  {
    if Defines(p, s, x) then z
    else if IsTemporary(p, ScriptDefining(p, s, x).value, x) then CaptureTemporary(p, z, s, x)
    else TransferLocal(p, z, s, x)
  }

  /** What the visitor meets: a local variable, self, or a return. */
  datatype Event = Local(script: nat, name: Name) | Self(script: nat) | Return(script: nat)

  predicate Allowed(p: Program, event: Event) {
    event.script < |p| && (event.Local? ==> ScriptDefining(p, event.script, event.name).Some?)
  }

  function After(p: Program, z: State, event: Event): (r: State)
    requires Shaped(p, z) && Allowed(p, event)
    ensures Shaped(p, r)
  {
    match event
    case Local(s, x) => CaptureLocal(p, z, s, x)
    case Self(s) => CaptureSelf(p, z, s)
    case Return(s) => CaptureEnvironment(p, z, RealScript(p, s), 0)
  }

  function AfterAll(p: Program, z: State, events: seq<Event>): (r: State)
    requires Shaped(p, z) && forall e :: e in events ==> Allowed(p, e)
    ensures Shaped(p, r)
    decreases |events|
  {
    if events == [] then z else AfterAll(p, After(p, z, events[0]), events[1..])
  }

  // ---- what every reference keeps

  predicate NoDuplicates(es: seq<nat>) {
    forall i, j :: 0 <= i < j < |es| ==> es[i] != es[j]
  }

  /** A real block's environments are without repetitions, the method's first, and each is that
      of the real parent or one the real parent captures too. */
  predicate EnvironmentsOk(p: Program, z: State, s: nat)
    requires Shaped(p, z) && s < |p|
  {
    var es := z.environments[s];
    && ((s == 0 || p[s].inlined) ==> es == [])
    && NoDuplicates(es)
    && (0 in es ==> es[0] == 0)
    && (forall e :: e in es ==> 0 < s && (e == RealParent(p, s) || e in z.environments[RealParent(p, s)]))
  }

  predicate Ordered(xs: seq<Name>) {
    forall i, j :: 0 <= i < j < |xs| ==> xs[i] < xs[j]
  }

  /** A block's captured names are in order, not its own, and its parent's own or captured. */
  predicate CapturedOk(p: Program, z: State, s: nat)
    requires Shaped(p, z) && s < |p|
  {
    && Ordered(z.captured[s])
    && forall x :: x in z.captured[s] ==>
      0 < s && !Defines(p, s, x) && (Defines(p, p[s].parent, x) || x in z.captured[p[s].parent])
  }

  /** Whoever captures a temporary across a real block can get at its environment, and the
      temporary is there. */
  predicate TemporaryOk(p: Program, z: State, s: nat, x: Name)
    requires Shaped(p, z) && s < |p|
  {
    var d := ScriptDefining(p, s, x);
    && d.Some?
    && (IsTemporary(p, d.value, x) && RealScript(p, d.value) != RealScript(p, s) ==>
      RealScript(p, d.value) in z.environments[RealScript(p, s)] && (d.value, x) in z.inArray)
  }

  predicate Invariant(p: Program, z: State) {
    && Shaped(p, z)
    && (forall s :: 0 <= s < |p| ==> EnvironmentsOk(p, z, s))
    && (forall s :: 0 <= s < |p| ==> CapturedOk(p, z, s))
    && (forall s, x :: 0 <= s < |p| && x in z.captured[s] ==> TemporaryOk(p, z, s, x))
    && (forall s :: 0 < s < |p| && z.selves[s] ==> z.selves[p[s].parent])
    && (forall l :: l in z.inArray ==> l.0 < |p| && IsTemporary(p, l.0, l.1))
  }

  lemma FreshInvariant(p: Program)
    ensures Invariant(p, Fresh(p))
  {}

  /** Scripts from one outwards. */
  predicate OnPath(p: Program, k: nat, s: nat)
    requires s < |p|
  {
    k == s || (0 < s && OnPath(p, k, p[s].parent))
  }

  // ---- environments

  /** Capturing an environment from a real script that lies inside the target keeps the lists in
      order, loses nothing, and leaves the target within reach. */
  lemma {:induction false} EnvironmentCaptured(p: Program, z: State, s: nat, target: nat)
    requires Invariant(p, z) && s < |p| && !p[s].inlined && target < |p| && OnPath(p, target, s) && !p[target].inlined
    ensures var r := CaptureEnvironment(p, z, s, target);
      && (forall k :: 0 <= k < |p| ==> EnvironmentsOk(p, r, k))
      && (forall k, e :: 0 <= k < |p| && e in z.environments[k] ==> e in r.environments[k])
      && (forall k :: s < k < |p| ==> r.environments[k] == z.environments[k])
      && (s == target || target in r.environments[s])
    decreases s
  {
    if s != target && target !in z.environments[s] {
      PathToReal(p, target, p[s].parent);
      EnvironmentCaptured(p, z, RealParent(p, s), target);
      var z1 := CaptureEnvironment(p, z, RealParent(p, s), target);
      var r := CaptureEnvironment(p, z, s, target);
      forall k | 0 <= k < |p| ensures EnvironmentsOk(p, r, k) {
        assert EnvironmentsOk(p, z1, k);
        assert s < |p| ==> EnvironmentsOk(p, z1, s);
      }
    }
  }

  /** A real script on the path of a script is on that of its real script. */
  lemma {:induction false} PathToReal(p: Program, k: nat, s: nat)
    requires s < |p| && k < |p| && OnPath(p, k, s) && !p[k].inlined
    ensures OnPath(p, k, RealScript(p, s))
    decreases s
  {
    if p[s].inlined && s > 0 {
      PathToReal(p, k, p[s].parent);
    }
  }

  // ---- names

  lemma {:induction false} InsertedInOrder(xs: seq<Name>, x: Name)
    requires Ordered(xs) && x !in xs
    ensures Ordered(Inserted(xs, x))
  {
    if xs != [] {
      assert xs[0] in xs;
      if x > xs[0] {
        InsertedInOrder(xs[1..], x);
        var r := Inserted(xs[1..], x);
        forall i | 0 <= i < |r| ensures xs[0] < r[i] {
          assert r[i] in r;
        }
        assert Inserted(xs, x) == [xs[0]] + r;
      } else {
        assert Inserted(xs, x) == [x] + xs;
      }
    }
  }

  /** A name is captured at scripts on the path only, up to the one that has it. */
  predicate Added(p: Program, z: State, r: State, s: nat, x: Name)
    requires Shaped(p, z) && Shaped(p, r) && s < |p|
  {
    && (forall k, y :: 0 <= k < |p| && y in z.captured[k] ==> y in r.captured[k])
    && (forall k, y :: 0 <= k < |p| && y in r.captured[k] && y !in z.captured[k] ==>
      y == x && OnPath(p, k, s) && ScriptDefining(p, k, x) == ScriptDefining(p, s, x))
    && (forall k :: s < k < |p| ==> r.captured[k] == z.captured[k])
  }

  lemma {:induction false} LocalTransferred(p: Program, z: State, s: nat, x: Name)
    requires Shaped(p, z) && s < |p| && ScriptDefining(p, s, x).Some?
    requires forall k :: 0 <= k < |p| ==> CapturedOk(p, z, k)
    ensures var r := TransferLocal(p, z, s, x);
      && (forall k :: 0 <= k < |p| ==> CapturedOk(p, r, k))
      && Added(p, z, r, s, x)
      && (Defines(p, s, x) || x in r.captured[s])
    decreases s
  {
    if !Defines(p, s, x) && x !in z.captured[s] && s != 0 {
      var parent := p[s].parent;
      LocalTransferred(p, z, parent, x);
      var z1, r := TransferLocal(p, z, parent, x), TransferLocal(p, z, s, x);
      assert CapturedOk(p, z1, s);
      InsertedInOrder(z1.captured[s], x);
      forall k | 0 <= k < |p| ensures CapturedOk(p, r, k) {
        assert CapturedOk(p, z1, k);
      }
    }
  }

  /** Captured names resolve within reach: to the declaration in the same real script, and
      otherwise to the copy of the real block. */
  lemma {:induction false} OwnerIs(p: Program, z: State, s: nat, x: Name)
    requires Shaped(p, z) && s < |p| && (forall k :: 0 <= k < |p| ==> CapturedOk(p, z, k))
    requires ScriptDefining(p, s, x).Some? && (Defines(p, s, x) || x in z.captured[s])
    ensures var d := ScriptDefining(p, s, x).value;
      Owner(p, z, s, x) == Some(if RealScript(p, d) == RealScript(p, s) then d else RealScript(p, s))
    decreases s
  {
    if !Defines(p, s, x) {
      assert CapturedOk(p, z, s);
      if p[s].inlined {
        OwnerIs(p, z, p[s].parent, x);
      } else {
        DefinedOutside(p, p[s].parent, x);
      }
    }
  }

  lemma {:induction false} DefinedOutside(p: Program, s: nat, x: Name)
    requires s < |p| && ScriptDefining(p, s, x).Some?
    ensures RealScript(p, ScriptDefining(p, s, x).value) <= RealScript(p, s) <= s
    decreases s
  {
    if !Defines(p, s, x) {
      DefinedOutside(p, p[s].parent, x);
    }
  }

  /** What a name resolves to, captured already or not: if not the declaration, a copy made in
      a real block around. */
  lemma {:induction false} Resolves(p: Program, z: State, s: nat, x: Name)
    requires Shaped(p, z) && s < |p| && ScriptDefining(p, s, x).Some?
    ensures var d, o := ScriptDefining(p, s, x).value, Owner(p, z, s, x);
      && o.Some?
      && (o.value == d
        || (!Defines(p, o.value, x) && !p[o.value].inlined && x in z.captured[o.value]
          && ScriptDefining(p, o.value, x) == Some(d)))
    decreases s
  {
    if !Defines(p, s, x) && !(x in z.captured[s] && !p[s].inlined) {
      Resolves(p, z, p[s].parent, x);
    }
  }

  // ---- temporaries

  /** An environment within reach of a script is within reach of every script around it that is
      still inside the target. */
  lemma {:induction false} ReachAlongPath(p: Program, z: State, k: nat, s: nat, x: Name)
    requires Shaped(p, z) && s < |p| && k < |p| && (forall i :: 0 <= i < |p| ==> EnvironmentsOk(p, z, i))
    requires OnPath(p, k, s) && ScriptDefining(p, s, x).Some? && ScriptDefining(p, k, x) == ScriptDefining(p, s, x)
    requires var e := RealScript(p, ScriptDefining(p, s, x).value);
      RealScript(p, s) == e || e in z.environments[RealScript(p, s)]
    ensures var e := RealScript(p, ScriptDefining(p, s, x).value);
      RealScript(p, k) == e || e in z.environments[RealScript(p, k)]
    decreases s
  {
    if k != s {
      PathDefining(p, k, s, x);
      DefinedOutside(p, p[s].parent, x);
      assert EnvironmentsOk(p, z, RealScript(p, s));
      ReachAlongPath(p, z, k, p[s].parent, x);
    }
  }

  lemma {:induction false} PathDefining(p: Program, k: nat, s: nat, x: Name)
    requires s < |p| && k < |p| && OnPath(p, k, s) && ScriptDefining(p, k, x) == ScriptDefining(p, s, x) && k != s
    requires ScriptDefining(p, s, x).Some?
    ensures !Defines(p, s, x)
    decreases s
  {
    PathBelow(p, k, s);
  }

  lemma {:induction false} PathBelow(p: Program, k: nat, s: nat)
    requires s < |p| && OnPath(p, k, s)
    ensures k <= s
    decreases s
  {
    if k != s {
      PathBelow(p, k, p[s].parent);
    }
  }

  /** A script's defining script is on its path. */
  lemma {:induction false} DefiningOnPath(p: Program, s: nat, x: Name)
    requires s < |p| && ScriptDefining(p, s, x).Some?
    ensures OnPath(p, ScriptDefining(p, s, x).value, s)
    decreases s
  {
    if !Defines(p, s, x) {
      DefiningOnPath(p, p[s].parent, x);
    }
  }

  lemma {:induction false} RealOnPath(p: Program, k: nat, s: nat)
    requires s < |p| && k < |p| && OnPath(p, k, s)
    ensures OnPath(p, RealScript(p, k), RealScript(p, s))
    decreases s
  {
    if k != s {
      RealOnPath(p, k, p[s].parent);
      if !p[s].inlined {
        assert RealScript(p, s) == s;
        RealPathStep(p, RealScript(p, k), s);
      }
    } else {
    }
  }

  lemma RealPathStep(p: Program, k: nat, s: nat)
    requires 0 < s < |p| && k < |p| && OnPath(p, k, RealScript(p, p[s].parent))
    ensures OnPath(p, k, p[s].parent)
  {
    PathJoin(p, k, p[s].parent);
  }

  lemma {:induction false} PathJoin(p: Program, k: nat, s: nat)
    requires s < |p| && OnPath(p, k, RealScript(p, s))
    ensures OnPath(p, k, s)
    decreases s
  {
    if p[s].inlined && s > 0 {
      PathJoin(p, k, p[s].parent);
    }
  }

  /** Real scripts only get further out along a path. */
  lemma {:induction false} RealAlongPath(p: Program, d: nat, k: nat, s: nat)
    requires s < |p| && k < |p| && d < |p| && OnPath(p, k, s) && OnPath(p, d, k)
    ensures RealScript(p, d) <= RealScript(p, k) <= RealScript(p, s)
  {
    RealDownPath(p, k, s);
    RealDownPath(p, d, k);
  }

  lemma {:induction false} RealDownPath(p: Program, k: nat, s: nat)
    requires s < |p| && k < |p| && OnPath(p, k, s)
    ensures RealScript(p, k) <= RealScript(p, s)
    decreases s
  {
    if k != s {
      RealDownPath(p, k, p[s].parent);
    }
  }

  /** Wherever a real block comes between the temporary and a script that captures it, the
      declaration has been put in its environment. */
  lemma MarkedInArray(p: Program, z: State, s: nat, x: Name, z2: State)
    requires Invariant(p, z) && s < |p| && ScriptDefining(p, s, x).Some? && x !in z.captured[s]
    requires !Defines(p, s, x) && RealScript(p, ScriptDefining(p, s, x).value) != RealScript(p, s)
    requires Shaped(p, z2) && z2.inArray == z.inArray && (forall k :: 0 <= k < |p| ==> CapturedOk(p, z2, k))
    requires x in z2.captured[s]
    requires IsTemporary(p, ScriptDefining(p, s, x).value, x)
    ensures var d, o, o2 := ScriptDefining(p, s, x).value, Owner(p, z, s, x), Owner(p, z2, s, x);
      && o2.Some? && InArray(p, z2, o2.value, x)
      && o.Some? && (o.value == d || (d, x) in z.inArray)
  {
    var d := ScriptDefining(p, s, x).value;
    Resolves(p, z, s, x);
    Resolves(p, z2, s, x);
    OwnerIs(p, z2, s, x);
    var o := Owner(p, z, s, x).value;
    if o != d {
      assert TemporaryOk(p, z, o, x);
    }
  }

  lemma {:induction false} TemporaryCaptured(p: Program, z: State, s: nat, x: Name)
    requires Invariant(p, z) && s < |p| && ScriptDefining(p, s, x).Some?
    requires !Defines(p, s, x) && IsTemporary(p, ScriptDefining(p, s, x).value, x)
    ensures Invariant(p, CaptureTemporary(p, z, s, x))
  {
    hide EnvironmentsOk, CapturedOk, CaptureEnvironment, TransferLocal, Owner, RealScript, OnPath;
    if x !in z.captured[s] {
      var d := ScriptDefining(p, s, x).value;
      var e, inner := RealScript(p, d), RealScript(p, s);
      DefiningOnPath(p, s, x);
      RealOnPath(p, d, s);
      EnvironmentCaptured(p, z, inner, e);
      var z1 := CaptureEnvironment(p, z, inner, e);
      SameCaptured(p, z, z1);
      LocalTransferred(p, z1, s, x);
      var z2, r := TransferLocal(p, z1, s, x), CaptureTemporary(p, z, s, x);
      assert r.environments == z1.environments && r.captured == z2.captured;
      assert r.selves == z.selves && z.inArray <= r.inArray;
      SameEnvironments(p, z1, r);
      SameCaptured(p, z2, r);
      Resolves(p, z, s, x);
      forall k, y | 0 <= k < |p| && y in r.captured[k] ensures TemporaryOk(p, r, k, y) {
        if y in z.captured[k] {
          assert TemporaryOk(p, z, k, y);
        } else if RealScript(p, k) != e {
          DefiningOnPath(p, k, x);
          RealAlongPath(p, d, k, s);
          ReachAlongPath(p, r, k, s, x);
          MarkedInArray(p, z, s, x, z2);
        }
      }
    }
  }

  lemma SameEnvironments(p: Program, z: State, r: State)
    requires Shaped(p, z) && Shaped(p, r) && z.environments == r.environments
    requires forall k :: 0 <= k < |p| ==> EnvironmentsOk(p, z, k)
    ensures forall k :: 0 <= k < |p| ==> EnvironmentsOk(p, r, k)
  {
    forall k | 0 <= k < |p| ensures EnvironmentsOk(p, r, k) {
      assert EnvironmentsOk(p, z, k);
    }
  }

  lemma SameCaptured(p: Program, z: State, r: State)
    requires Shaped(p, z) && Shaped(p, r) && z.captured == r.captured
    requires forall k :: 0 <= k < |p| ==> CapturedOk(p, z, k)
    ensures forall k :: 0 <= k < |p| ==> CapturedOk(p, r, k)
  {
    forall k | 0 <= k < |p| ensures CapturedOk(p, r, k) {
      assert CapturedOk(p, z, k);
    }
  }

  // ---- every reference

  lemma ArgumentCaptured(p: Program, z: State, s: nat, x: Name)
    requires Invariant(p, z) && s < |p| && ScriptDefining(p, s, x).Some?
    requires !Defines(p, s, x) && !IsTemporary(p, ScriptDefining(p, s, x).value, x)
    ensures Invariant(p, TransferLocal(p, z, s, x))
  {
    hide EnvironmentsOk, CapturedOk, TransferLocal, RealScript, OnPath;
    LocalTransferred(p, z, s, x);
    var r := TransferLocal(p, z, s, x);
    SameEnvironments(p, z, r);
    forall k, y | 0 <= k < |p| && y in r.captured[k] ensures TemporaryOk(p, r, k, y) {
      if y in z.captured[k] {
        assert TemporaryOk(p, z, k, y);
      }
    }
  }

  /** Capturing self marks every script outwards. */
  lemma {:induction false} SelfCaptured(p: Program, z: State, s: nat)
    requires Shaped(p, z) && s < |p|
    requires forall k :: 0 < k < |p| && z.selves[k] ==> z.selves[p[k].parent] || p[k].parent == s
    ensures var r := CaptureSelf(p, z, s);
      && r.selves[s] && (forall k :: 0 < k < |p| && r.selves[k] ==> r.selves[p[k].parent])
      && (forall k :: 0 <= k < |p| && z.selves[k] ==> r.selves[k])
    decreases s
  {
    if !z.selves[s] && s != 0 {
      SelfCaptured(p, z.(selves := z.selves[s := true]), p[s].parent);
    }
  }

  /** What a reference needs is within reach afterwards. */
  predicate Reached(p: Program, z: State, event: Event)
    requires Shaped(p, z) && Allowed(p, event)
  {
    match event
    case Local(s, x) => Defines(p, s, x) || x in z.captured[s]
    case Self(s) => z.selves[s]
    case Return(s) => RealScript(p, s) == 0 || 0 in z.environments[RealScript(p, s)]
  }

  /** Every reference keeps the invariant, and gets at what it refers to. */
  lemma EventKeepsInvariant(p: Program, z: State, event: Event)
    requires Invariant(p, z) && Allowed(p, event)
    ensures Invariant(p, After(p, z, event)) && Reached(p, After(p, z, event), event)
  {
    hide EnvironmentsOk, CapturedOk, TemporaryOk, OnPath, RealScript, CaptureEnvironment, TransferLocal, CaptureSelf;
    match event
    case Local(s, x) =>
      if !Defines(p, s, x) {
        if IsTemporary(p, ScriptDefining(p, s, x).value, x) {
          TemporaryCaptured(p, z, s, x);
          TemporaryThere(p, z, s, x);
        } else {
          ArgumentCaptured(p, z, s, x);
          LocalTransferred(p, z, s, x);
        }
      }
    case Self(s) =>
      SelfCaptured(p, z, s);
      var r := CaptureSelf(p, z, s);
      SameEnvironments(p, z, r);
      SameCaptured(p, z, r);
      SameTemporaries(p, z, r);
    case Return(s) =>
      HomeCaptured(p, z, s, 0);
  }

  lemma HomeCaptured(p: Program, z: State, s: nat, home: nat)
    requires Invariant(p, z) && s < |p| && home == 0
    ensures var r := CaptureEnvironment(p, z, RealScript(p, s), home);
      Invariant(p, r) && (RealScript(p, s) == home || home in r.environments[RealScript(p, s)])
  {
    hide EnvironmentsOk, CapturedOk, TemporaryOk, OnPath, RealScript, CaptureEnvironment;
    MethodOnPath(p, s);
    RealOnPath(p, home, s);
    RealScriptOfMethod(p);
    EnvironmentCaptured(p, z, RealScript(p, s), home);
    var r := CaptureEnvironment(p, z, RealScript(p, s), home);
    SameCaptured(p, z, r);
    SameTemporaries(p, z, r);
  }

  lemma RealScriptOfMethod(p: Program)
    ensures RealScript(p, 0) == 0
  {}

  lemma TemporaryThere(p: Program, z: State, s: nat, x: Name)
    requires Invariant(p, z) && s < |p| && ScriptDefining(p, s, x).Some? && !Defines(p, s, x)
    ensures x in CaptureTemporary(p, z, s, x).captured[s]
  {
    hide EnvironmentsOk, CapturedOk, TemporaryOk, CaptureEnvironment, TransferLocal, RealScript, Owner;
    if x !in z.captured[s] {
      var z1 := CaptureEnvironment(p, z, RealScript(p, s), RealScript(p, ScriptDefining(p, s, x).value));
      SameCaptured(p, z, z1);
      LocalTransferred(p, z1, s, x);
    }
  }

  lemma SameTemporaries(p: Program, z: State, r: State)
    requires Shaped(p, z) && Shaped(p, r) && r.captured == z.captured && z.inArray <= r.inArray
    requires forall k, e :: 0 <= k < |p| && e in z.environments[k] ==> e in r.environments[k]
    requires forall k, y :: 0 <= k < |p| && y in z.captured[k] ==> TemporaryOk(p, z, k, y)
    ensures forall k, y :: 0 <= k < |p| && y in r.captured[k] ==> TemporaryOk(p, r, k, y)
  {
    forall k, y | 0 <= k < |p| && y in r.captured[k] ensures TemporaryOk(p, r, k, y) {
      assert TemporaryOk(p, z, k, y);
    }
  }

  lemma {:induction false} MethodOnPath(p: Program, s: nat)
    requires s < |p|
    ensures OnPath(p, 0, s)
    decreases s
  {
    if s != 0 {
      MethodOnPath(p, p[s].parent);
    }
  }

  /** Nothing captured is given up. */
  predicate Extends(p: Program, z: State, r: State)
    requires Shaped(p, z) && Shaped(p, r)
  {
    && (forall k, e :: 0 <= k < |p| && e in z.environments[k] ==> e in r.environments[k])
    && (forall k, x :: 0 <= k < |p| && x in z.captured[k] ==> x in r.captured[k])
    && (forall k :: 0 <= k < |p| && z.selves[k] ==> r.selves[k])
    && z.inArray <= r.inArray
  }

  lemma {:induction false} EnvironmentExtends(p: Program, z: State, s: nat, target: nat)
    requires Shaped(p, z) && s < |p|
    ensures Extends(p, z, CaptureEnvironment(p, z, s, target))
    decreases s
  {
    if !(s == target || s == 0 || target in z.environments[s]) {
      EnvironmentExtends(p, z, RealParent(p, s), target);
    }
  }

  lemma {:induction false} LocalExtends(p: Program, z: State, s: nat, x: Name)
    requires Shaped(p, z) && s < |p|
    ensures Extends(p, z, TransferLocal(p, z, s, x))
    decreases s
  {
    if !(Defines(p, s, x) || x in z.captured[s] || s == 0) {
      LocalExtends(p, z, p[s].parent, x);
    }
  }

  lemma {:induction false} SelfExtends(p: Program, z: State, s: nat)
    requires Shaped(p, z) && s < |p|
    ensures Extends(p, z, CaptureSelf(p, z, s))
    decreases s
  {
    if !z.selves[s] && s != 0 {
      SelfExtends(p, z.(selves := z.selves[s := true]), p[s].parent);
    }
  }

  lemma EventExtends(p: Program, z: State, event: Event)
    requires Shaped(p, z) && Allowed(p, event)
    ensures Extends(p, z, After(p, z, event))
  {
    hide CaptureEnvironment, TransferLocal, CaptureSelf, Owner, RealScript;
    match event
    case Local(s, x) =>
      var d := ScriptDefining(p, s, x).value;
      EnvironmentExtends(p, z, RealScript(p, s), RealScript(p, d));
      LocalExtends(p, CaptureEnvironment(p, z, RealScript(p, s), RealScript(p, d)), s, x);
      LocalExtends(p, z, s, x);
    case Self(s) =>
      SelfExtends(p, z, s);
    case Return(s) =>
      EnvironmentExtends(p, z, RealScript(p, s), 0);
  }

  /** However references come, the invariant holds at the end, what was within reach of a script
      still is, and so is everything referred to on the way. */
  lemma {:induction false} AnalysisKeepsInvariant(p: Program, z: State, events: seq<Event>)
    requires Invariant(p, z) && forall e :: e in events ==> Allowed(p, e)
    ensures Invariant(p, AfterAll(p, z, events)) && Extends(p, z, AfterAll(p, z, events))
    ensures forall e :: e in events ==> Reached(p, AfterAll(p, z, events), e)
    decreases |events|
  {
    hide EnvironmentsOk, CapturedOk, TemporaryOk, After, RealScript;
    if events != [] {
      assert events[0] in events && forall e :: e in events[1..] ==> e in events;
      var z1 := After(p, z, events[0]);
      EventKeepsInvariant(p, z, events[0]);
      EventExtends(p, z, events[0]);
      AnalysisKeepsInvariant(p, z1, events[1..]);
      assert forall e :: e in events ==> e == events[0] || e in events[1..];
    }
  }

  /** A method's analysis starts with nothing captured, and ends with the invariant and with
      everything it met within reach. */
  lemma MethodAnalysis(p: Program, events: seq<Event>)
    requires forall e :: e in events ==> Allowed(p, e)
    ensures Invariant(p, AfterAll(p, Fresh(p), events))
    ensures forall e :: e in events ==> Reached(p, AfterAll(p, Fresh(p), events), e)
  {
    FreshInvariant(p);
    AnalysisKeepsInvariant(p, Fresh(p), events);
  }

  // ---- and how they do it, in place

  /** The scopes of a method's scripts, filled in as the visitor goes. */
  class Analysis {
    const program: Program
    var environments: seq<seq<nat>>
    var captured: seq<seq<Name>>
    var selves: seq<bool>
    var inArray: set<(nat, Name)>

    constructor (p: Program)
      ensures program == p && Now() == Fresh(p)
    {
      program := p;
      environments, captured, selves := seq(|p|, _ => []), seq(|p|, _ => []), seq(|p|, _ => false);
      inArray := {};
    }

    ghost function Now(): State
      reads this
    {
      State(environments, captured, selves, inArray)
    }

    method CaptureEnvironmentFrom(s: nat, target: nat)
      requires Shaped(program, Now()) && s < |program|
      modifies `environments
      ensures Now() == CaptureEnvironment(program, old(Now()), s, target)
      decreases s
    {
      if s == target || s == 0 || target in environments[s] {
        return;
      }
      CaptureEnvironmentFrom(RealParent(program, s), target);
      if target == 0 {
        environments := environments[s := [target] + environments[s]];
      } else {
        environments := environments[s := environments[s] + [target]];
      }
    }

    method CaptureSelfFrom(s: nat)
      requires Shaped(program, Now()) && s < |program|
      modifies `selves
      ensures Now() == CaptureSelf(program, old(Now()), s)
      decreases s
    {
      if selves[s] {
        return;
      }
      selves := selves[s := true];
      if s != 0 {
        CaptureSelfFrom(program[s].parent);
      }
    }

    method TransferLocalTo(s: nat, x: Name)
      requires Shaped(program, Now()) && s < |program|
      modifies `captured
      ensures Now() == TransferLocal(program, old(Now()), s, x)
      decreases s
    {
      if !Defines(program, s, x) && x !in captured[s] && s != 0 {
        TransferLocalTo(program[s].parent, x);
        captured := captured[s := Inserted(captured[s], x)];
      }
    }

    /** The script whose binding a name resolves to. */
    method Resolve(s: nat, x: Name) returns (o: Option<nat>)
      requires Shaped(program, Now()) && s < |program|
      ensures o == Owner(program, Now(), s, x)
      decreases s
    {
      if Defines(program, s, x) || (s != 0 && x in captured[s] && !program[s].inlined) {
        o := Some(s);
      } else if s == 0 {
        o := None;
      } else {
        o := Resolve(program[s].parent, x);
      }
    }

    method CaptureLocalFrom(s: nat, x: Name)
      requires Shaped(program, Now()) && s < |program| && ScriptDefining(program, s, x).Some?
      modifies this
      ensures Now() == CaptureLocal(program, old(Now()), s, x)
    {
      hide CaptureEnvironment, TransferLocal, Owner;
      if Defines(program, s, x) || x in captured[s] {
        KeptCaptured(program, Now(), s, x);
        return;
      }
      var declaration := ScriptDefining(program, s, x).value;
      if IsTemporary(program, declaration, x) {
        var resolved := Resolve(s, x);
        CaptureEnvironmentFrom(RealScript(program, s), RealScript(program, declaration));
        TransferLocalTo(s, x);
        var copy := Resolve(s, x);
        var copyInArray := copy.Some? && (!Defines(program, copy.value, x) || (copy.value, x) in inArray);
        if copyInArray && resolved.Some? && Defines(program, resolved.value, x) {
          inArray := inArray + {(resolved.value, x)};
        }
      } else {
        TransferLocalTo(s, x);
      }
    }

    /** All the references of a method, one after the other. */
    method Visit(events: seq<Event>)
      requires Invariant(program, Now()) && forall e :: e in events ==> Allowed(program, e)
      modifies this
      ensures Now() == AfterAll(program, old(Now()), events) && Invariant(program, Now())
    {
      hide EnvironmentsOk, CapturedOk, TemporaryOk, CaptureEnvironment, CaptureSelf, CaptureLocal;
      AnalysisKeepsInvariant(program, Now(), events);
      var i := 0;
      while i < |events|
        invariant i <= |events| && Shaped(program, Now())
        invariant AfterAll(program, Now(), events[i..]) == AfterAll(program, old(Now()), events)
      {
        assert events[i] in events && events[i..][0] == events[i] && events[i..][1..] == events[i + 1..];
        match events[i] {
          case Local(s, x) => CaptureLocalFrom(s, x);
          case Self(s) => CaptureSelfFrom(s);
          case Return(s) => CaptureEnvironmentFrom(RealScript(program, s), 0);
        }
        i := i + 1;
      }
    }
  }

  lemma KeptCaptured(p: Program, z: State, s: nat, x: Name)
    requires Shaped(p, z) && s < |p| && ScriptDefining(p, s, x).Some? && (Defines(p, s, x) || x in z.captured[s])
    ensures CaptureLocal(p, z, s, x) == z
  {}
}
