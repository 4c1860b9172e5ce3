/** The scopes capture just what the references of a method need: each thing captured is needed by
    some reference, and each thing needed is captured. */
module Causes {
  import opened Scopes

  // ---- what a reference needs

  /** A script between the reference and the declaration, inlined or not, needs the name. */
  predicate NeedsName(p: Program, event: Event, s: nat, x: Name)
    requires Allowed(p, event) && s < |p|
  {
    && event.Local? && event.name == x && OnPath(p, s, event.script) && !Defines(p, s, x)
    && ScriptDefining(p, s, x) == ScriptDefining(p, event.script, x)
  }

  /** A real block between the reference and the real script e needs that one's environment: for a
      temporary declared in it, or for a return from it. */
  predicate NeedsEnvironment(p: Program, event: Event, s: nat, e: nat)
    requires Allowed(p, event) && s < |p|
  {
    && !p[s].inlined && s != e && OnPath(p, s, RealScript(p, event.script)) && OnPath(p, e, s)
    && match event
       case Local(s', x) =>
         var d := ScriptDefining(p, s', x).value;
         !Defines(p, s', x) && IsTemporary(p, d, x) && e == RealScript(p, d)
       case Self(_) => false
       case Return(_) => e == 0
  }

  predicate NeedsSelf(p: Program, event: Event, s: nat)
    requires Allowed(p, event) && s < |p|
  {
    event.Self? && OnPath(p, s, event.script)
  }

  /** A temporary referred to across a real block has to be in an environment. */
  predicate NeedsArray(p: Program, event: Event, d: nat, x: Name)
    requires Allowed(p, event)
  {
    && event.Local? && event.name == x && ScriptDefining(p, event.script, x) == Some(d)
    && IsTemporary(p, d, x) && RealScript(p, d) != RealScript(p, event.script)
  }

  // ---- nothing else is captured

  lemma {:induction false} EnvironmentAdds(p: Program, z: State, s: nat, target: nat)
    requires Shaped(p, z) && s < |p| && !p[s].inlined && target < |p| && !p[target].inlined && OnPath(p, target, s)
    ensures var r := CaptureEnvironment(p, z, s, target);
      forall k, e :: 0 <= k < |p| && e in r.environments[k] && e !in z.environments[k] ==>
        e == target && OnPath(p, k, s) && !p[k].inlined && k != target && OnPath(p, target, k)
    decreases s
  {
    if !(s == target || s == 0 || target in z.environments[s]) {
      PathToReal(p, target, p[s].parent);
      EnvironmentAdds(p, z, RealParent(p, s), target);
      var z1, r := CaptureEnvironment(p, z, RealParent(p, s), target), CaptureEnvironment(p, z, s, target);
      forall k, e | 0 <= k < |p| && e in r.environments[k] && e !in z.environments[k]
        ensures e == target && OnPath(p, k, s) && !p[k].inlined && k != target && OnPath(p, target, k)
      {
        if k != s || e in z1.environments[k] {
          PathJoin(p, k, p[s].parent);
        }
      }
    }
  }

  lemma {:induction false} SelfAdds(p: Program, z: State, s: nat)
    requires Shaped(p, z) && s < |p|
    ensures var r := CaptureSelf(p, z, s);
      forall k :: 0 <= k < |p| && r.selves[k] && !z.selves[k] ==> OnPath(p, k, s)
    decreases s
  {
    if !z.selves[s] && s != 0 {
      SelfAdds(p, z.(selves := z.selves[s := true]), p[s].parent);
    }
  }

  /** The name is not captured where it is declared. */
  lemma {:induction false} NameAdds(p: Program, z: State, s: nat, x: Name)
    requires Shaped(p, z) && s < |p|
    ensures var r := TransferLocal(p, z, s, x);
      forall k, y :: 0 <= k < |p| && y in r.captured[k] && y !in z.captured[k] ==>
        y == x && OnPath(p, k, s) && !Defines(p, k, x) && ScriptDefining(p, k, x) == ScriptDefining(p, s, x)
    decreases s
  {
    if !(Defines(p, s, x) || x in z.captured[s] || s == 0) {
      NameAdds(p, z, p[s].parent, x);
    }
  }

  lemma ArrayAdds(p: Program, z: State, s: nat, x: Name)
    requires Invariant(p, z) && s < |p| && ScriptDefining(p, s, x).Some? && !Defines(p, s, x)
    requires IsTemporary(p, ScriptDefining(p, s, x).value, x)
    ensures forall l :: l in CaptureTemporary(p, z, s, x).inArray && l !in z.inArray ==>
      NeedsArray(p, Local(s, x), l.0, l.1)
  {
    hide EnvironmentsOk, CapturedOk, CaptureEnvironment, TransferLocal, RealScript, OnPath;
    if x !in z.captured[s] {
      var d := ScriptDefining(p, s, x).value;
      var z1 := CaptureEnvironment(p, z, RealScript(p, s), RealScript(p, d));
      SameCaptured(p, z, z1);
      LocalTransferred(p, z1, s, x);
      var z2 := TransferLocal(p, z1, s, x);
      Resolves(p, z, s, x);
      OwnerIs(p, z2, s, x);
    }
  }

  lemma EventAdds(p: Program, z: State, event: Event)
    requires Invariant(p, z) && Allowed(p, event)
    ensures var r := After(p, z, event);
      && (forall s, x :: 0 <= s < |p| && x in r.captured[s] && x !in z.captured[s] ==> NeedsName(p, event, s, x))
      && (forall s, e :: 0 <= s < |p| && e in r.environments[s] && e !in z.environments[s] ==>
            NeedsEnvironment(p, event, s, e))
      && (forall s :: 0 <= s < |p| && r.selves[s] && !z.selves[s] ==> NeedsSelf(p, event, s))
      && (forall l :: l in r.inArray && l !in z.inArray ==> NeedsArray(p, event, l.0, l.1))
  {
    hide EnvironmentsOk, CapturedOk, TemporaryOk, CaptureEnvironment, TransferLocal, CaptureSelf, Owner, RealScript;
    hide OnPath;
    match event
    case Local(s, x) =>
      if !Defines(p, s, x) {
        var d := ScriptDefining(p, s, x).value;
        NameAdds(p, z, s, x);
        if IsTemporary(p, d, x) {
          DefiningOnPath(p, s, x);
          RealOnPath(p, d, s);
          EnvironmentAdds(p, z, RealScript(p, s), RealScript(p, d));
          NameAdds(p, CaptureEnvironment(p, z, RealScript(p, s), RealScript(p, d)), s, x);
          ArrayAdds(p, z, s, x);
        }
      }
    case Self(s) => SelfAdds(p, z, s);
    case Return(s) =>
      MethodOnPath(p, s);
      RealOnPath(p, 0, s);
      RealScriptOfMethod(p);
      EnvironmentAdds(p, z, RealScript(p, s), 0);
  }

  /** Whatever is captured at the end was captured at the beginning or is needed by a reference. */
  lemma {:induction false} AllCaused(p: Program, z: State, events: seq<Event>)
    requires Invariant(p, z) && forall e :: e in events ==> Allowed(p, e)
    ensures var r := AfterAll(p, z, events);
      && (forall s, x :: 0 <= s < |p| && x in r.captured[s] ==>
            x in z.captured[s] || exists event :: event in events && NeedsName(p, event, s, x))
      && (forall s, e :: 0 <= s < |p| && e in r.environments[s] ==>
            e in z.environments[s] || exists event :: event in events && NeedsEnvironment(p, event, s, e))
      && (forall s :: 0 <= s < |p| && r.selves[s] ==>
            z.selves[s] || exists event :: event in events && NeedsSelf(p, event, s))
      && (forall l :: l in r.inArray ==>
            l in z.inArray || exists event :: event in events && NeedsArray(p, event, l.0, l.1))
    decreases |events|
  {
    hide EnvironmentsOk, CapturedOk, TemporaryOk, After, NeedsName, NeedsEnvironment, NeedsSelf, NeedsArray;
    if events != [] {
      assert events[0] in events && forall e :: e in events[1..] ==> e in events;
      EventAdds(p, z, events[0]);
      EventKeepsInvariant(p, z, events[0]);
      AllCaused(p, After(p, z, events[0]), events[1..]);
    }
  }

  // ---- and all that is needed is

  lemma {:induction false} NameNeeded(p: Program, z: State, k: nat, s: nat, x: Name)
    requires Invariant(p, z) && s < |p| && k < |p| && OnPath(p, k, s) && !Defines(p, k, x)
    requires ScriptDefining(p, s, x).Some? && ScriptDefining(p, k, x) == ScriptDefining(p, s, x)
    requires Defines(p, s, x) || x in z.captured[s]
    ensures x in z.captured[k]
    decreases s
  {
    if Defines(p, s, x) {
      PathBelow(p, k, s);
    } else if k != s {
      assert CapturedOk(p, z, s);
      NameNeeded(p, z, k, p[s].parent, x);
    }
  }

  lemma {:induction false} EnvironmentNeeded(p: Program, z: State, k: nat, s: nat, e: nat)
    requires Invariant(p, z) && s < |p| && k < |p| && e < |p| && OnPath(p, k, s) && OnPath(p, e, k) && k != e
    requires !p[s].inlined && !p[k].inlined && !p[e].inlined && e in z.environments[s]
    ensures e in z.environments[k]
    decreases s
  {
    if k != s {
      assert EnvironmentsOk(p, z, s);
      PathToReal(p, k, p[s].parent);
      PathBelow(p, k, RealParent(p, s));
      PathBelow(p, e, k);
      EnvironmentNeeded(p, z, k, RealParent(p, s), e);
    }
  }

  lemma {:induction false} SelfNeeded(p: Program, z: State, k: nat, s: nat)
    requires Invariant(p, z) && s < |p| && k < |p| && OnPath(p, k, s) && z.selves[s]
    ensures z.selves[k]
    decreases s
  {
    if k != s {
      SelfNeeded(p, z, k, p[s].parent);
    }
  }

  lemma NeedsAreMet(p: Program, z: State, event: Event)
    requires Invariant(p, z) && Allowed(p, event) && Reached(p, z, event)
    ensures forall s, x :: 0 <= s < |p| && NeedsName(p, event, s, x) ==> x in z.captured[s]
    ensures forall s, e :: 0 <= s < |p| && NeedsEnvironment(p, event, s, e) ==> e in z.environments[s]
    ensures forall s :: 0 <= s < |p| && NeedsSelf(p, event, s) ==> z.selves[s]
    ensures forall d: nat, x: Name :: NeedsArray(p, event, d, x) ==> (d, x) in z.inArray
  {
    hide EnvironmentsOk, CapturedOk, OnPath, RealScript;
    forall s, x | 0 <= s < |p| && NeedsName(p, event, s, x)
      ensures x in z.captured[s]
    {
      NameNeeded(p, z, s, event.script, x);
    }
    forall s, e | 0 <= s < |p| && NeedsEnvironment(p, event, s, e)
      ensures e in z.environments[s]
    {
      EnvironmentMet(p, z, event, s, e);
    }
    forall s | 0 <= s < |p| && NeedsSelf(p, event, s)
      ensures z.selves[s]
    {
      SelfNeeded(p, z, s, event.script);
    }
    forall d: nat, x: Name | NeedsArray(p, event, d, x)
      ensures (d, x) in z.inArray
    {
      DefinedThere(p, event.script, x);
      assert TemporaryOk(p, z, event.script, x);
    }
  }

  lemma EnvironmentMet(p: Program, z: State, event: Event, s: nat, e: nat)
    requires Invariant(p, z) && Allowed(p, event) && Reached(p, z, event)
    requires s < |p| && NeedsEnvironment(p, event, s, e)
    ensures e in z.environments[s]
  {
    hide EnvironmentsOk, CapturedOk, OnPath, RealScript;
    var inner := RealScript(p, event.script);
    PathBelow(p, e, s);
    PathBelow(p, s, inner);
    RealScriptOfMethod(p);
    if event.Local? {
      assert TemporaryOk(p, z, event.script, event.name);
    }
    EnvironmentNeeded(p, z, s, inner, e);
  }

  lemma DefinedThere(p: Program, s: nat, x: Name)
    requires s < |p|
    ensures Defines(p, s, x) ==> ScriptDefining(p, s, x) == Some(s)
  {}

  /** At the end of a method's analysis every script has captured what a reference needs of it, and
      nothing else. */
  lemma CapturedExactly(p: Program, events: seq<Event>)
    requires forall e :: e in events ==> Allowed(p, e)
    ensures var z := AfterAll(p, Fresh(p), events);
      && (forall s, x :: 0 <= s < |p| ==>
            (x in z.captured[s] <==> exists event :: event in events && NeedsName(p, event, s, x)))
      && (forall s, e :: 0 <= s < |p| ==>
            (e in z.environments[s] <==> exists event :: event in events && NeedsEnvironment(p, event, s, e)))
      && (forall s :: 0 <= s < |p| ==>
            (z.selves[s] <==> exists event :: event in events && NeedsSelf(p, event, s)))
      && (forall d: nat, x: Name ::
            (d, x) in z.inArray <==> exists event :: event in events && NeedsArray(p, event, d, x))
  {
    hide Invariant, AfterAll, NeedsName, NeedsEnvironment, NeedsSelf, NeedsArray, Reached;
    FreshInvariant(p);
    MethodAnalysis(p, events);
    AllCaused(p, Fresh(p), events);
    var z := AfterAll(p, Fresh(p), events);
    forall event | event in events
      ensures forall s, x :: 0 <= s < |p| && NeedsName(p, event, s, x) ==> x in z.captured[s]
      ensures forall s, e :: 0 <= s < |p| && NeedsEnvironment(p, event, s, e) ==> e in z.environments[s]
      ensures forall s :: 0 <= s < |p| && NeedsSelf(p, event, s) ==> z.selves[s]
      ensures forall d: nat, x: Name :: NeedsArray(p, event, d, x) ==> (d, x) in z.inArray
    {
      NeedsAreMet(p, z, event);
    }
  }

  // ---- the paths themselves

  /** A name means its declaration in the innermost script around that has one. */
  lemma {:induction false} InnermostDefines(p: Program, s: nat, x: Name, k: nat)
    requires s < |p| && k < |p| && OnPath(p, k, s) && Defines(p, k, x)
    ensures ScriptDefining(p, s, x).Some? && k <= ScriptDefining(p, s, x).value
    ensures OnPath(p, ScriptDefining(p, s, x).value, s)
    decreases s
  {
    if Defines(p, s, x) {
      PathBelow(p, k, s);
    } else {
      InnermostDefines(p, p[s].parent, x, k);
    }
  }

  /** A real script is the innermost one on the path that is not inlined. */
  lemma {:induction false} InnermostReal(p: Program, s: nat, k: nat)
    requires s < |p| && k < |p| && OnPath(p, k, s) && !p[k].inlined
    ensures k <= RealScript(p, s) && OnPath(p, RealScript(p, s), s) && !p[RealScript(p, s)].inlined
    decreases s
  {
    if p[s].inlined && s > 0 {
      InnermostReal(p, p[s].parent, k);
    } else {
      PathBelow(p, k, s);
    }
  }
}
