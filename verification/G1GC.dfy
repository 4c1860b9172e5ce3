/** The mark-and-evacuate collector of the old zone: an explicit work stack, the range being
    scanned kept in `scanned`, `index` and `limit`, copies made while marking, and the
    ephemeron loops. */
module G1GC {
  import opened Regions
  import opened Heap
  import opened Marking

  /** Where a rescue round started. */
  datatype Before = Before(trace: Trace, history: History, rescued: seq<Address>, unchecked: seq<Address>)

  class G1GC {
    const zone: Zone
    var evacuated: seq<bool>
    var memory: Memory
    var forwarders: map<Address, Address>
    var stack: seq<Pending>
    var scanned: Address
    var index: nat
    var limit: nat
    var roots: seq<Value>        // registers and stack cells
    var gcedRefs: seq<Value>
    var unchecked: seq<Address>
    var unreached: seq<Address>
    var rescued: seq<Address>

    ghost var start: Memory              // the heap, the roots and the references
    ghost var startRoots: seq<Value>     // before the collection
    ghost var startRefs: seq<Value>
    ghost var origin: map<Address, Address>
    ghost var history: History           // the ephemerons followed, and what was marked then
    ghost var bound: set<Address>        // what may be marked
    ghost var aside: multiset<Address>   // waiting ephemerons outside `unchecked`
    ghost var rounds: seq<Round>         // the rescue rounds so far

    ghost function CurrentPlan(): Plan reads `evacuated, `start {
      Plan(zone, evacuated, start)
    }

    ghost function CurrentTrace(): Trace reads `memory, `forwarders, `origin {
      Trace(memory, forwarders, origin)
    }

    ghost function Current(): Pending reads `scanned, `index, `limit {
      Pending(scanned, index, limit)
    }

    ghost predicate Holds(work: seq<Pending>)
      reads `evacuated, `start, `memory, `forwarders, `origin, `history, `bound, `unchecked, `aside
    {
      CurrentPlan().Valid()
        && Invariant(CurrentPlan(), CurrentTrace(), history.Keys, bound, multiset(unchecked) + aside, work)
    }

    ghost function Unseen(): set<Address> reads `memory, `start {
      UnseenIn(start, memory)
    }

    /** Copies the object outside the spaces being emptied and leaves a forwarder. A copy starts
        as not remembered. */
    method Evacuate(a: Address) returns (copy: Address)
      requires CurrentPlan().Valid() && a in memory
      modifies `memory, `forwarders
      ensures copy !in old(memory) && !CurrentPlan().HasToEvacuate(copy)
      ensures memory == old(memory)[copy := old(memory)[a]] && forwarders == old(forwarders)[a := copy]
    {
      FreshAddressExists(CurrentPlan(), memory);
      copy :| copy !in memory && !InEvacuatedSpace(zone, evacuated, copy);
      memory := memory[copy := memory[a].(remembered := false)];
      if memory[a].remembered {
        memory := memory[copy := memory[copy].(remembered := true)];
      }
      forwarders := forwarders[a := copy];
    }

    /** Marks an object, moving it if its space is to be emptied. */
    method MarkFirst(b: Address, evacuate: bool) returns (r: Address)
      requires CurrentPlan().Valid() && Located(CurrentPlan(), CurrentTrace())
      requires b in start && b in memory && !memory[b].seen && evacuate == InEvacuatedSpace(zone, evacuated, b)
      modifies `memory, `forwarders, `origin
      ensures CanMark(CurrentPlan(), old(CurrentTrace()), b, r)
      ensures CurrentTrace() == MarkAt(CurrentPlan(), old(CurrentTrace()), b, r) && r in memory
    {
      hide Located;
      memory := memory[b := memory[b].(seen := true)];
      r := b;
      if evacuate {
        r := Evacuate(b);
      }
      origin := origin[r := b];
    }

    /** Marks an object the first time it is met and answers where it lives from now on. */
    method ResolveObject(b: Address, ghost work: seq<Pending>) returns (r: Address)
      requires Holds(work) && b in memory
      requires memory[b].seen && InEvacuatedSpace(zone, evacuated, b) ==> b in forwarders
      requires !memory[b].seen ==> b in start && b in bound
      modifies `memory, `forwarders, `origin, `unchecked
      ensures old(memory[b].seen) ==>
        && CurrentTrace() == old(CurrentTrace()) && unchecked == old(unchecked)
        && r == NewAddress(CurrentPlan(), CurrentTrace(), b)
      ensures !old(memory[b].seen) ==>
        && CanMark(CurrentPlan(), old(CurrentTrace()), b, r)
        && CurrentTrace() == MarkAt(CurrentPlan(), old(CurrentTrace()), b, r)
        && Unseen() < old(Unseen())
        && Resolved(CurrentPlan(), CurrentTrace(), Ref(b), Ref(r))
        && r in memory && memory[r] == start[b].(seen := true)
        && Holds(work + [Pending(r, 0, start[b].StrongPointersSize())])
      ensures Grows(old(CurrentTrace()), CurrentTrace())
      ensures SameButSeen(old(memory), memory)
    {
      hide Invariant, Located, Copied, Resolved, Grows, UnseenIn, SameButSeen, CanMark, MarkAt;
      InvariantParts(CurrentPlan(), CurrentTrace(), history.Keys, bound, multiset(unchecked) + aside, work);
      ghost var before := CurrentTrace();
      GrowsRefl(before);
      var evacuate := InEvacuatedSpace(zone, evacuated, b);
      if memory[b].seen {
        r := if evacuate then forwarders[b] else b;
        return;
      }
      r := MarkFirst(b, evacuate);
      MarkKeepsInvariant(CurrentPlan(), before, history.Keys, bound, multiset(unchecked) + aside, work, b, r);
      if memory[r].special {
        unchecked := unchecked + [r];
        assert multiset(unchecked) + aside == old(multiset(unchecked) + aside) + multiset{r};
      }
    }

    /** Stores the address of a target that was marked before and moves on. */
    method StepOverTo(r: Address)
      requires Holds(stack + [Current()]) && index <= limit
      requires scanned in origin && scanned in memory && origin[scanned] in start
      requires index <= start[origin[scanned]].PointersSize() && index <= |memory[scanned].slots|
      requires Resolved(CurrentPlan(), CurrentTrace(), start[origin[scanned]].At(index), Ref(r))
      modifies `memory, `index
      ensures Holds(stack + [Current()]) && index == old(index) + 1
      ensures Grows(old(CurrentTrace()), CurrentTrace()) && Unseen() == old(Unseen())
    {
      hide Invariant, Resolved, Located, NewAddress, Grows, UnseenIn;
      StepOver(CurrentPlan(), CurrentTrace(), history.Keys, bound, multiset(unchecked) + aside, stack, Current(),
        Ref(r));
      memory := memory[scanned := memory[scanned].Put(index, Ref(r))];
      assert CurrentTrace() == old(StoreAt(CurrentTrace(), scanned, index, Ref(r)));
      index := index + 1;
      assert Current() == old(Current().(from := index + 1));
    }

    /** Stores the address of a target that has just been marked and turns to it, keeping what
        is left of the range for later. */
    method StepIntoTo(r: Address)
      requires index <= limit
      requires r in memory && Holds(stack + [Current()] + [Pending(r, 0, memory[r].StrongPointersSize())])
      requires scanned in origin && scanned in memory && origin[scanned] in start
      requires index <= start[origin[scanned]].PointersSize() && index <= |memory[scanned].slots|
      requires Resolved(CurrentPlan(), CurrentTrace(), start[origin[scanned]].At(index), Ref(r))
      modifies `memory, `stack, `scanned, `index, `limit
      ensures Holds(stack + [Current()])
      ensures Grows(old(CurrentTrace()), CurrentTrace()) && Unseen() == old(Unseen())
    {
      hide Invariant, Resolved, Located, NewAddress, Grows, UnseenIn;
      ghost var size := memory[r].StrongPointersSize();
      StepInto(CurrentPlan(), CurrentTrace(), history.Keys, bound, multiset(unchecked) + aside, stack, Current(), r,
        size);
      memory := memory[scanned := memory[scanned].Put(index, Ref(r))];
      assert CurrentTrace() == old(StoreAt(CurrentTrace(), scanned, index, Ref(r)));
      if index < limit {
        QueueCurrent();
      }
      index := 0;
      limit := memory[r].StrongPointersSize();
      scanned := r;
      assert Current() == Pending(r, 0, size);
      assert stack == RestQueued(old(stack), old(Current()));
    }

    method QueueCurrent()
      modifies `stack
      ensures stack == old(stack) + [Pending(scanned, index + 1, limit)]
    {
      stack := stack + [Pending(scanned, index + 1, limit)];
    }

    /** Looks at the position `index` of the object being scanned when it holds a pointer:
        brings it up to date and, the first time its target is met, turns to the target. */
    method ScanTarget(b: Address)
      requires index <= limit && Holds(stack + [Current()]) && scanned in memory
      requires index <= |memory[scanned].slots| && memory[scanned].At(index) == Ref(b)
      modifies `memory, `forwarders, `origin, `unchecked, `stack, `scanned, `index, `limit
      ensures Holds(stack + [Current()])
      ensures Grows(old(CurrentTrace()), CurrentTrace())
      ensures Unseen() < old(Unseen())
              || (Unseen() == old(Unseen()) && stack == old(stack) && scanned == old(scanned)
                  && limit == old(limit) && index == old(index) + 1)
    {
      hide Invariant, Resolved, Located, NewAddress, CanMark, MarkAt, Grows, UnseenIn;
      ghost var before, p := CurrentTrace(), Current();
      TargetCases(CurrentPlan(), before, history.Keys, bound, multiset(unchecked) + aside, stack + [p], p);
      var wasSeen := memory[b].seen;
      var r := ResolveObject(b, stack + [p]);
      ghost var between := CurrentTrace();
      GrowsOrigin(before, between, scanned);
      if wasSeen {
        StepOverTo(r);
      } else {
        StepIntoTo(r);
      }
      GrowsTrans(before, between, CurrentTrace());
    }

    method ScanBehavior()
      requires index == 0 <= limit && Holds(stack + [Current()])
      modifies `memory, `forwarders, `origin, `unchecked, `stack, `scanned, `index, `limit
      ensures Holds(stack + [Current()]) && Grows(old(CurrentTrace()), CurrentTrace())
      ensures Unseen() < old(Unseen())
              || (Unseen() == old(Unseen()) && stack == old(stack) && limit == old(limit) && index == old(index) + 1)
    {
      hide Invariant, Resolved, Located, NewAddress, Grows, UnseenIn;
      ghost var queue := multiset(unchecked) + aside;
      TargetCases(CurrentPlan(), CurrentTrace(), history.Keys, bound, queue, stack + [Current()], Current());
      var slot := memory[scanned].behavior;
      if slot.Ref? {
        ScanTarget(slot.at);
      } else {
        StepPast(CurrentPlan(), CurrentTrace(), history.Keys, bound, queue, stack, Current());
        GrowsRefl(CurrentTrace());
        index := index + 1;
        assert Current() == old(Current()).(from := index);
      }
    }

    method ScanSlot()
      requires 0 < index <= limit && Holds(stack + [Current()])
      modifies `memory, `forwarders, `origin, `unchecked, `stack, `scanned, `index, `limit
      ensures Holds(stack + [Current()]) && Grows(old(CurrentTrace()), CurrentTrace())
      ensures Unseen() < old(Unseen())
              || (Unseen() == old(Unseen()) && stack == old(stack) && limit == old(limit) && index == old(index) + 1)
    {
      hide Invariant, Resolved, Located, NewAddress, Grows, UnseenIn;
      ghost var queue := multiset(unchecked) + aside;
      TargetCases(CurrentPlan(), CurrentTrace(), history.Keys, bound, queue, stack + [Current()], Current());
      var slot := memory[scanned].slots[index - 1];
      if slot.Ref? {
        ScanTarget(slot.at);
      } else {
        StepPast(CurrentPlan(), CurrentTrace(), history.Keys, bound, queue, stack, Current());
        GrowsRefl(CurrentTrace());
        index := index + 1;
        assert Current() == old(Current()).(from := index);
      }
    }

    /** Scans until the work stack is empty. */
    method FollowObjects()
      requires Holds(stack)
      modifies `memory, `forwarders, `origin, `unchecked, `stack, `scanned, `index, `limit
      ensures Holds([]) && stack == []
      ensures Grows(old(CurrentTrace()), CurrentTrace())
    {
      hide Invariant, Grows, UnseenIn, WorkSize;
      GrowsRefl(CurrentTrace());
      while stack != []
        invariant Holds(stack) && Grows(old(CurrentTrace()), CurrentTrace())
        decreases Unseen(), WorkSize(stack)
      {
        var p := stack[|stack| - 1];
        assert stack == stack[..|stack| - 1] + [p];
        WorkSizePush(stack[..|stack| - 1], p);
        stack := stack[..|stack| - 1];
        scanned, index, limit := p.scanned, p.from, p.to;
        ghost var unseen, size := Unseen(), WorkSize(stack);
        while index <= limit
          invariant Holds(stack + [Current()]) && Grows(old(CurrentTrace()), CurrentTrace())
          invariant Unseen() < unseen || (Unseen() == unseen && WorkSize(stack) == size)
          decreases Unseen(), RangeSize(Current())
        {
          ghost var before := CurrentTrace();
          if index == 0 {
            ScanBehavior();
          } else {
            ScanSlot();
          }
          GrowsTrans(old(CurrentTrace()), before, CurrentTrace());
        }
        DropEmptyKeepsInvariant(CurrentPlan(), CurrentTrace(), history.Keys, bound, multiset(unchecked) + aside, stack,
          Current());
      }
    }

    /** Brings one root up to date; a target met for the first time is queued. */
    method ScanRoot(root: Value, ghost before: Value) returns (r: Value)
      requires Holds(stack) && RootKept(CurrentPlan(), CurrentTrace(), bound, before, root)
      modifies `memory, `forwarders, `origin, `unchecked, `stack
      ensures Holds(stack) && Grows(old(CurrentTrace()), CurrentTrace())
      ensures Resolved(CurrentPlan(), CurrentTrace(), before, r)
    {
      hide Invariant, Resolved, Located, NewAddress, MarkAt, Grows, UnseenIn;
      RootCases(CurrentPlan(), CurrentTrace(), history.Keys, bound, multiset(unchecked) + aside, stack, before, root);
      GrowsRefl(CurrentTrace());
      r := root;
      if root.Ref? {
        var wasSeen := memory[root.at].seen;
        var moved := ResolveObject(root.at, stack);
        r := Ref(moved);
        if !wasSeen {
          ScanFromTo(moved, 0, memory[moved].StrongPointersSize());
        }
      }
    }

    method ScanFromTo(a: Address, from: nat, to: nat)
      modifies `stack
      ensures stack == old(stack) + [Pending(a, from, to)]
    {
      stack := stack + [Pending(a, from, to)];
    }

    ghost predicate RefsKept()
      requires CurrentPlan().Valid()
      reads `evacuated, `start, `memory, `forwarders, `origin, `bound, `startRefs, `gcedRefs
    {
      RootsKept(CurrentPlan(), CurrentTrace(), bound, startRefs, gcedRefs)
    }

    /** Scans the registers and the live cells of the native stack. */
    method ScanCurrentContext()
      requires Holds(stack) && RootsKept(CurrentPlan(), CurrentTrace(), bound, startRoots, roots)
      modifies `memory, `forwarders, `origin, `unchecked, `stack, `roots
      ensures Holds(stack) && Grows(old(CurrentTrace()), CurrentTrace())
      ensures RootsResolved(CurrentPlan(), CurrentTrace(), startRoots, roots, |roots|)
    {
      hide Invariant, Resolved, Grows, UnseenIn, RootKept;
      GrowsRefl(CurrentTrace());
      var k := 0;
      while k < |roots|
        invariant Holds(stack) && Grows(old(CurrentTrace()), CurrentTrace()) && k <= |roots|
        invariant RootsKept(CurrentPlan(), CurrentTrace(), bound, startRoots, roots)
        invariant RootsResolved(CurrentPlan(), CurrentTrace(), startRoots, roots, k)
      {
        ghost var before, was := CurrentTrace(), roots;
        var r := ScanRoot(roots[k], startRoots[k]);
        roots := roots[k := r];
        GrowsTrans(old(CurrentTrace()), before, CurrentTrace());
        RootsStep(CurrentPlan(), before, CurrentTrace(), bound, startRoots, was, k, r);
        k := k + 1;
      }
    }

    /** Scans the references held by the runtime; repeated before every trace. */
    method FollowGCedRefs()
      requires Holds(stack) && RefsKept()
      modifies `memory, `forwarders, `origin, `unchecked, `stack, `gcedRefs
      ensures Holds(stack) && Grows(old(CurrentTrace()), CurrentTrace()) && RefsKept()
      ensures RootsResolved(CurrentPlan(), CurrentTrace(), startRefs, gcedRefs, |gcedRefs|)
    {
      hide Invariant, Resolved, Grows, UnseenIn, RootKept;
      GrowsRefl(CurrentTrace());
      var k := 0;
      while k < |gcedRefs|
        invariant Holds(stack) && Grows(old(CurrentTrace()), CurrentTrace()) && k <= |gcedRefs| && RefsKept()
        invariant RootsResolved(CurrentPlan(), CurrentTrace(), startRefs, gcedRefs, k)
      {
        ghost var before, was := CurrentTrace(), gcedRefs;
        var r := ScanRoot(gcedRefs[k], startRefs[k]);
        gcedRefs := gcedRefs[k := r];
        GrowsTrans(old(CurrentTrace()), before, CurrentTrace());
        RootsStep(CurrentPlan(), before, CurrentTrace(), bound, startRefs, was, k, r);
        k := k + 1;
      }
    }

    /** Scans the runtime's references and then everything the work stack leads to. */
    method FollowClosure()
      requires Holds(stack) && RefsKept()
      modifies `memory, `forwarders, `origin, `unchecked, `stack, `gcedRefs, `scanned, `index, `limit
      ensures Holds([]) && stack == [] && Grows(old(CurrentTrace()), CurrentTrace()) && RefsKept()
      ensures RootsResolved(CurrentPlan(), CurrentTrace(), startRefs, gcedRefs, |gcedRefs|)
    {
      hide Invariant, Resolved, Grows, UnseenIn, RootsKept, RootsResolved;
      FollowGCedRefs();
      while stack != []
        invariant Holds(stack) && Grows(old(CurrentTrace()), CurrentTrace()) && RefsKept()
        invariant RootsResolved(CurrentPlan(), CurrentTrace(), startRefs, gcedRefs, |gcedRefs|)
        decreases |stack|
      {
        ghost var before := CurrentTrace();
        FollowObjects();
        GrowsTrans(old(CurrentTrace()), before, CurrentTrace());
        RootsGrow(CurrentPlan(), before, CurrentTrace(), bound, startRefs, gcedRefs, |gcedRefs|);
      }
    }

    // ---- ephemerons

    /** Queues the slots of an ephemeron and follows everything they lead to. */
    method FollowEphemeronWeaks(e: Address)
      requires Holds([]) && stack == [] && RefsKept()
      requires aside[e] > 0 && e in origin && Bound(CurrentPlan(), history.Keys + {origin[e]}, bound)
      requires e in memory
      modifies `memory, `forwarders, `origin, `unchecked, `stack, `gcedRefs, `scanned, `index, `limit
      modifies `history, `aside
      ensures Holds([]) && stack == [] && RefsKept() && Grows(old(CurrentTrace()), CurrentTrace())
      ensures RootsResolved(CurrentPlan(), CurrentTrace(), startRefs, gcedRefs, |gcedRefs|)
      ensures history == old(history[origin[e] := Marked()]) && aside == old(aside) - multiset{e}
    {
      hide Invariant, Grows, UnseenIn, RootsKept, RootsResolved, Bound, Resolved, SeenSet;
      FollowKeepsInvariant(CurrentPlan(), CurrentTrace(), history.Keys, bound, multiset(unchecked) + aside, e);
      ghost var keys := history.Keys + {origin[e]};
      history := history[origin[e] := Marked()];
      assert history.Keys == keys;
      assert multiset(unchecked) + aside - multiset{e} == multiset(unchecked) + (aside - multiset{e});
      aside := aside - multiset{e};
      ScanFromTo(e, 1, |memory[e].slots|);
      assert stack == [Pending(e, 1, |memory[e].slots|)];
      FollowClosure();
    }

    /** Reads the key of an ephemeron. */
    method CheckReachablePropertyOf(e: Address) returns (reachable: bool)
      requires Holds([]) && (multiset(unchecked) + aside)[e] > 0
      ensures e in origin && e in memory && origin[e] in start && start[origin[e]].special
      ensures origin[e] !in history && reachable == KeySeen(CurrentPlan(), CurrentTrace(), origin[e])
    {
      hide Invariant, KeySeen;
      KeyCheck(CurrentPlan(), CurrentTrace(), history.Keys, bound, multiset(unchecked) + aside, [], e);
      var key := memory[e].slots[0];
      reachable := key.Small? || memory[key.at].seen;
    }

    /** The old objects that are marked. */
    ghost function Marked(): set<Address>
      requires CurrentPlan().Valid()
      reads `evacuated, `start, `memory, `forwarders, `origin
    {
      SeenSet(CurrentPlan(), CurrentTrace())
    }

    /** The waiting ephemerons in `unreached` have unmarked keys. */
    ghost predicate NoneReached()
      requires CurrentPlan().Valid()
      reads `evacuated, `start, `memory, `forwarders, `origin, `unreached
    {
      forall e :: e in unreached ==>
        && e in origin && origin[e] in start && start[origin[e]].special
        && !KeySeen(CurrentPlan(), CurrentTrace(), origin[e])
    }

    /** Every ephemeron followed since then had its key marked when it was followed. */
    ghost predicate FollowedLive(was: History, seen: set<Address>)
      requires CurrentPlan().Valid()
      reads `evacuated, `start, `memory, `forwarders, `origin, `history
    {
      LiveSince(CurrentPlan(), CurrentTrace(), was, seen, history)
    }

    ghost predicate Quiet()
      reads `evacuated, `start, `memory, `forwarders, `origin, `history, `bound, `unchecked, `aside, `stack
      reads `startRoots, `startRefs, `gcedRefs, `rounds
    {
      && CurrentPlan().Valid() && Holds([]) && stack == [] && RefsKept()
      && RootsResolved(CurrentPlan(), CurrentTrace(), startRefs, gcedRefs, |gcedRefs|)
      && LiveClosed(start, startRoots + startRefs, RescuedBy(rounds), bound)
    }

    /** Follows an ephemeron whose key is marked. */
    method FollowLive(e: Address, ghost was: History, ghost seen: set<Address>)
      requires Quiet() && aside[e] > 0 && FollowedLive(was, seen)
      requires e in origin && e in memory && origin[e] in start && start[origin[e]].special && origin[e] !in history
      requires KeySeen(CurrentPlan(), CurrentTrace(), origin[e])
      modifies `memory, `forwarders, `origin, `unchecked, `stack, `gcedRefs, `scanned, `index, `limit
      modifies `history, `aside
      ensures Quiet() && aside == old(aside) - multiset{e} && FollowedLive(was, seen)
      ensures Grows(old(CurrentTrace()), CurrentTrace())
      ensures Unfollowed(start, history.Keys) < Unfollowed(start, old(history.Keys))
    {
      hide Invariant, Grows, UnseenIn, RootsKept, RootsResolved, Bound, Resolved, LiveClosed, KeySeen, Unfollowed;
      hide LiveSince, SeenSet, RescuedBy;
      ghost var a, before, held := origin[e], CurrentTrace(), history;
      ghost var queue := multiset(unchecked) + aside;
      LiveBound(CurrentPlan(), before, history.Keys, bound, queue, [], startRoots + startRefs, RescuedBy(rounds), a);
      UnfollowedShrinks(start, history.Keys, a);
      FollowEphemeronWeaks(e);
      LiveIsFollowed(CurrentPlan(), before, was, seen, held);
      FollowedOneMore(CurrentPlan(), before, CurrentTrace(), was, seen, held, a);
      assert history.Keys == held.Keys + {a};
    }

    method PopUnchecked() returns (e: Address)
      requires Quiet() && unchecked != []
      modifies `unchecked, `aside
      ensures Quiet() && Holds([]) && unchecked == old(unchecked[..|unchecked| - 1])
      ensures aside == old(aside) + multiset{e}
    {
      hide Invariant, RefsKept, RootsResolved, LiveClosed;
      e := unchecked[|unchecked| - 1];
      assert unchecked == unchecked[..|unchecked| - 1] + [e];
      unchecked := unchecked[..|unchecked| - 1];
      aside := aside + multiset{e};
      assert multiset(unchecked) + aside == old(multiset(unchecked) + aside);
    }

    /** Takes one unchecked ephemeron: follows it if its key is marked, else sets it apart. */
    method CheckNext(ghost was: History, ghost seen: set<Address>) returns (reachable: bool)
      requires Quiet() && unchecked != [] && aside == multiset(unreached) && FollowedLive(was, seen)
      modifies `memory, `forwarders, `origin, `unchecked, `stack, `gcedRefs, `scanned, `index, `limit
      modifies `history, `aside, `unreached
      ensures Quiet() && aside == multiset(unreached) && FollowedLive(was, seen)
      ensures Grows(old(CurrentTrace()), CurrentTrace())
      ensures reachable ==> unreached == old(unreached)
      ensures reachable ==> Unfollowed(start, history.Keys) < Unfollowed(start, old(history.Keys))
      ensures !reachable ==> history == old(history) && |unchecked| < old(|unchecked|)
      ensures !reachable && old(NoneReached()) ==> NoneReached()
    {
      hide Quiet, Invariant, Grows, UnseenIn, KeySeen, Unfollowed, FollowedLive, NoneReached;
      GrowsRefl(CurrentTrace());
      var ephemeron := PopUnchecked();
      reachable := CheckReachablePropertyOf(ephemeron);
      if reachable {
        FollowLive(ephemeron, was, seen);
      } else {
        SetApart(ephemeron);
      }
    }

    method SetApart(e: Address)
      requires CurrentPlan().Valid() && e in origin && origin[e] in start && start[origin[e]].special
      requires !KeySeen(CurrentPlan(), CurrentTrace(), origin[e])
      modifies `unreached
      ensures unreached == old(unreached) + [e]
      ensures old(NoneReached()) ==> NoneReached()
    {
      unreached := unreached + [e];
    }

    /** Follows every unchecked ephemeron whose key is marked and sets the others apart. */
    method CheckEphemerons(ghost was: History, ghost seen: set<Address>) returns (done: bool)
      requires Quiet() && unreached == [] && aside == multiset{} && FollowedLive(was, seen)
      modifies `memory, `forwarders, `origin, `unchecked, `stack, `gcedRefs, `scanned, `index, `limit
      modifies `history, `aside, `unreached
      ensures Quiet() && unchecked == [] && aside == multiset(unreached)
      ensures Grows(old(CurrentTrace()), CurrentTrace()) && FollowedLive(was, seen)
      ensures done ==> NoneReached() && history == old(history)
      ensures !done ==> Unfollowed(start, history.Keys) < Unfollowed(start, old(history.Keys))
    {
      hide Holds, Invariant, Grows, UnseenIn, RefsKept, RootsResolved, LiveClosed, Unfollowed, FollowedLive;
      hide NoneReached, RescuedBy;
      done := true;
      GrowsRefl(CurrentTrace());
      NothingSetApart();
      while unchecked != []
        invariant Quiet() && aside == multiset(unreached)
        invariant Grows(old(CurrentTrace()), CurrentTrace()) && FollowedLive(was, seen)
        invariant done ==> NoneReached() && history == old(history)
        invariant !done ==> Unfollowed(start, history.Keys) < Unfollowed(start, old(history.Keys))
        decreases Unfollowed(start, history.Keys), |unchecked|
      {
        ghost var before := CurrentTrace();
        var reachable := CheckNext(was, seen);
        GrowsTrans(old(CurrentTrace()), before, CurrentTrace());
        if reachable {
          done := false;
        }
      }
    }

    lemma NothingFollowed()
      requires CurrentPlan().Valid()
      ensures FollowedLive(history, Marked())
    {}

    lemma NothingSetApart()
      requires CurrentPlan().Valid() && unreached == []
      ensures NoneReached()
    {}

    /** Repeats until a pass over the waiting ephemerons finds no marked key. */
    method FollowLiveEphemerons()
      requires Quiet() && unreached == [] && aside == multiset{}
      modifies `memory, `forwarders, `origin, `unchecked, `stack, `gcedRefs, `scanned, `index, `limit
      modifies `history, `aside, `unreached
      ensures Quiet() && unchecked == [] && aside == multiset(unreached) && NoneReached()
      ensures Grows(old(CurrentTrace()), CurrentTrace()) && FollowedLive(old(history), old(Marked()))
      ensures Unfollowed(start, history.Keys) <= Unfollowed(start, old(history.Keys))
    {
      hide Holds, Invariant, Grows, UnseenIn, RefsKept, RootsResolved, LiveClosed, Unfollowed, FollowedLive;
      hide NoneReached, Marked, RescuedBy;
      GrowsRefl(CurrentTrace());
      NothingFollowed();
      while true
        invariant Quiet() && unreached == [] && aside == multiset{}
        invariant Grows(old(CurrentTrace()), CurrentTrace()) && FollowedLive(old(history), old(Marked()))
        invariant Unfollowed(start, history.Keys) <= Unfollowed(start, old(history.Keys))
        decreases Unfollowed(start, history.Keys)
      {
        ghost var before := CurrentTrace();
        var done := CheckEphemerons(old(history), old(Marked()));
        GrowsTrans(old(CurrentTrace()), before, CurrentTrace());
        if done {
          break;
        }
        SwapUncheckedWithUnreached();
      }
    }

    method SwapUncheckedWithUnreached()
      requires Quiet() && unchecked == [] && aside == multiset(unreached)
      modifies `unchecked, `unreached, `aside
      ensures unchecked == old(unreached) && unreached == old(unchecked)
      ensures Quiet() && aside == multiset{}
    {
      hide Invariant, RefsKept, RootsResolved, LiveClosed;
      unchecked, unreached := unreached, unchecked;
      aside := multiset{};
      assert multiset(unchecked) + aside == old(multiset(unchecked) + aside);
    }

    /** Follows an ephemeron of the current round whether or not its key is marked. */
    method RescueEphemeron(e: Address)
      requires Quiet() && aside[e] > 0 && (e in origin ==> origin[e] in RescuedBy(rounds))
      modifies `memory, `forwarders, `origin, `unchecked, `stack, `gcedRefs, `scanned, `index, `limit
      modifies `history, `aside, `rescued
      ensures Quiet() && Grows(old(CurrentTrace()), CurrentTrace())
      ensures aside == old(aside) - multiset{e} && rescued == old(rescued) + [e]
      ensures e in old(origin) && old(origin[e]) in start && start[old(origin[e])].special
      ensures old(origin[e]) !in old(history) && history == old(history[origin[e] := Marked()])
      ensures Unfollowed(start, history.Keys) < Unfollowed(start, old(history.Keys))
    {
      hide Invariant, Grows, UnseenIn, RefsKept, RootsResolved, Resolved, LiveClosed, KeySeen, Unfollowed, SeenSet;
      hide RescuedBy;
      ghost var queue, held := multiset(unchecked) + aside, history;
      KeyCheck(CurrentPlan(), CurrentTrace(), history.Keys, bound, queue, [], e);
      ghost var a := origin[e];
      LiveBound(CurrentPlan(), CurrentTrace(), history.Keys, bound, queue, [], AllRoots(), RescuedBy(rounds), a);
      UnfollowedShrinks(start, history.Keys, a);
      FollowEphemeronWeaks(e);
      assert history.Keys == held.Keys + {a};
      rescued := rescued + [e];
    }

    lemma UnreachedAreMarked()
      requires Holds([]) && aside == multiset(unreached)
      ensures forall e :: e in unreached ==> e in origin
    {
      forall e | e in unreached
        ensures e in origin
      {
        assert (multiset(unchecked) + aside)[e] > 0;
        KeyCheck(CurrentPlan(), CurrentTrace(), history.Keys, bound, multiset(unchecked) + aside, [], e);
      }
    }

    /** Rescues every ephemeron set apart, each once. */
    method RescueUnreachableEphemerons() returns (done: bool)
      requires Quiet() && aside == multiset(unreached)
      requires forall e :: e in unreached && e in origin ==> origin[e] in RescuedBy(rounds)
      modifies `memory, `forwarders, `origin, `unchecked, `stack, `gcedRefs, `scanned, `index, `limit
      modifies `history, `aside, `rescued, `unreached
      ensures Quiet() && Grows(old(CurrentTrace()), CurrentTrace())
      ensures unreached == [] && aside == multiset{} && done == (old(unreached) == [])
      ensures rescued == old(rescued) + old(unreached)
      ensures forall e :: e in old(unreached) ==> e in old(origin)
      ensures history.Keys == old(history.Keys) + Originals(old(origin), old(unreached))
      ensures FollowedSince(CurrentPlan(), CurrentTrace(), old(history), old(Marked()), history)
      ensures !done ==> Unfollowed(start, history.Keys) < Unfollowed(start, old(history.Keys))
      ensures done ==> CurrentTrace() == old(CurrentTrace()) && unchecked == old(unchecked)
    {
      hide Holds, Quiet, Invariant, Grows, UnseenIn, RefsKept, RootsResolved, LiveClosed, Unfollowed, Originals;
      hide RescuedUpTo, FollowedSince, SeenSet, RescuedBy;
      done := unreached == [];
      ghost var batch := unreached;
      ghost var was := Before(CurrentTrace(), history, rescued, unchecked);
      NothingRescuedYet(was);
      var k := 0;
      while k < |unreached|
        invariant unreached == batch && k <= |unreached| && RescuedUpTo(was, k)
      {
        RescueAt(was, k);
        k := k + 1;
      }
      RescueEnds(was);
      unreached := [];
    }

    /** The ephemerons set apart have been rescued up to the index. */
    ghost predicate RescuedUpTo(was: Before, k: nat)
      reads `evacuated, `start, `memory, `forwarders, `origin, `history, `bound, `unchecked, `aside, `stack
      reads `startRoots, `startRefs, `gcedRefs, `unreached, `rescued, `rounds
    {
      && CurrentPlan().Valid() && Quiet() && Grows(was.trace, CurrentTrace())
      && k <= |unreached| && aside == multiset(unreached[k..]) && rescued == was.rescued + unreached[..k]
      && (forall e :: e in unreached ==> e in was.trace.origin && was.trace.origin[e] in RescuedBy(rounds))
      && history.Keys == was.history.Keys + Originals(was.trace.origin, unreached[..k])
      && FollowedSince(CurrentPlan(), CurrentTrace(), was.history, SeenSet(CurrentPlan(), was.trace), history)
      && (k > 0 ==> Unfollowed(start, history.Keys) < Unfollowed(start, was.history.Keys))
      && (k == 0 ==> CurrentTrace() == was.trace && unchecked == was.unchecked)
    }

    lemma NothingRescuedYet(was: Before)
      requires Quiet() && aside == multiset(unreached)
      requires forall e :: e in unreached && e in origin ==> origin[e] in RescuedBy(rounds)
      requires was == Before(CurrentTrace(), history, rescued, unchecked)
      ensures RescuedUpTo(was, 0)
    {
      hide Invariant, Grows, RefsKept, RootsResolved, LiveClosed, Unfollowed, SeenSet, RescuedBy;
      GrowsRefl(CurrentTrace());
      UnreachedAreMarked();
      assert unreached[0..] == unreached;
    }

    lemma RescueEnds(was: Before)
      requires RescuedUpTo(was, |unreached|)
      ensures Quiet() && Grows(was.trace, CurrentTrace()) && aside == multiset{}
      ensures rescued == was.rescued + unreached && forall e :: e in unreached ==> e in was.trace.origin
      ensures history.Keys == was.history.Keys + Originals(was.trace.origin, unreached)
      ensures FollowedSince(CurrentPlan(), CurrentTrace(), was.history, SeenSet(CurrentPlan(), was.trace), history)
      ensures unreached != [] ==> Unfollowed(start, history.Keys) < Unfollowed(start, was.history.Keys)
      ensures unreached == [] ==> CurrentTrace() == was.trace && unchecked == was.unchecked
    {
      hide Invariant, Grows, LiveClosed, Unfollowed, Originals, FollowedSince, SeenSet, RescuedBy, RefsKept;
      hide RootsResolved, Holds;
      assert unreached[..|unreached|] == unreached;
    }

    method RescueAt(ghost was: Before, k: nat)
      requires k < |unreached| && RescuedUpTo(was, k)
      modifies `memory, `forwarders, `origin, `unchecked, `stack, `gcedRefs, `scanned, `index, `limit
      modifies `history, `aside, `rescued
      ensures RescuedUpTo(was, k + 1)
    {
      hide Holds, Quiet, Invariant, Grows, UnseenIn, RefsKept, RootsResolved, LiveClosed, Unfollowed, Originals;
      hide FollowedSince, SeenSet, RescuedBy, RescuedUpTo;
      ghost var before, held := CurrentTrace(), history;
      RescuedSoFar(was, k);
      GrowsOrigin(was.trace, before, unreached[k]);
      RescueEphemeron(unreached[k]);
      GrowsTrans(was.trace, before, CurrentTrace());
      ghost var a, seen := was.trace.origin[unreached[k]], SeenSet(CurrentPlan(), was.trace);
      FollowedOneMore(CurrentPlan(), before, CurrentTrace(), was.history, seen, held, a);
      assert history.Keys == held.Keys + {a};
      OneMoreRescued(was, k, held);
    }

    lemma RescuedSoFar(was: Before, k: nat)
      requires k < |unreached| && RescuedUpTo(was, k)
      ensures CurrentPlan().Valid() && Quiet() && Grows(was.trace, CurrentTrace())
      ensures aside == multiset{unreached[k]} + multiset(unreached[k + 1..]) && rescued == was.rescued + unreached[..k]
      ensures forall e :: e in unreached ==> e in was.trace.origin && was.trace.origin[e] in RescuedBy(rounds)
      ensures unreached[k] in was.trace.origin
      ensures history.Keys == was.history.Keys + Originals(was.trace.origin, unreached[..k])
      ensures FollowedSince(CurrentPlan(), CurrentTrace(), was.history, SeenSet(CurrentPlan(), was.trace), history)
      ensures Unfollowed(start, history.Keys) <= Unfollowed(start, was.history.Keys)
    {
      hide Quiet, Grows, Unfollowed, Originals, FollowedSince, SeenSet, RescuedBy;
      assert unreached[k..] == [unreached[k]] + unreached[k + 1..];
      NoOriginals(was.trace.origin);
      assert k == 0 ==> history.Keys == was.history.Keys;
    }

    lemma OneMoreRescued(was: Before, k: nat, held: History)
      requires k < |unreached| && CurrentPlan().Valid() && Quiet() && Grows(was.trace, CurrentTrace())
      requires aside == multiset(unreached[k + 1..]) && rescued == was.rescued + unreached[..k] + [unreached[k]]
      requires forall e :: e in unreached ==> e in was.trace.origin && was.trace.origin[e] in RescuedBy(rounds)
      requires held.Keys == was.history.Keys + Originals(was.trace.origin, unreached[..k])
      requires unreached[k] in was.trace.origin && history.Keys == held.Keys + {was.trace.origin[unreached[k]]}
      requires FollowedSince(CurrentPlan(), CurrentTrace(), was.history, SeenSet(CurrentPlan(), was.trace), history)
      requires Unfollowed(start, history.Keys) < Unfollowed(start, was.history.Keys)
      ensures RescuedUpTo(was, k + 1)
    {
      hide Quiet, Grows, Unfollowed, Originals, FollowedSince, SeenSet, RescuedBy;
      OriginalsPush(was.trace.origin, unreached[..k], unreached[k]);
      assert unreached[..k + 1] == unreached[..k] + [unreached[k]];
    }

    ghost function AllRoots(): seq<Value> reads `startRoots, `startRefs {
      startRoots + startRefs
    }

    /** The rescue rounds so far are those the heap demands, and account for every ephemeron
        followed. */
    ghost predicate Rescues()
      requires CurrentPlan().Valid()
      reads `evacuated, `start, `memory, `forwarders, `origin, `history, `rescued, `rounds, `startRoots, `startRefs
    {
      && RoundsOk(start, AllRoots(), rounds)
      && Accounted(CurrentPlan(), CurrentTrace(), history, rounds)
      && RescuedOnce(CurrentTrace(), rounds, multiset(rescued))
    }

    /** What may be marked is what the rounds so far keep alive. */
    ghost predicate BoundIsLive()
      reads `start, `bound, `rounds, `startRoots, `startRefs
    {
      bound == LiveSet(start, AllRoots(), RescuedBy(rounds))
    }

    /** The live phase of one pass marks exactly what the rounds so far keep alive. */
    method LivePhase()
      requires Quiet() && unreached == [] && aside == multiset{} && Rescues() && BoundIsLive() && RootsDone()
      modifies `memory, `forwarders, `origin, `unchecked, `stack, `gcedRefs, `scanned, `index, `limit
      modifies `history, `aside, `unreached
      ensures Quiet() && unchecked == [] && aside == multiset(unreached) && NoneReached() && Rescues() && RootsDone()
      ensures Marked() == LiveSet(start, AllRoots(), RescuedBy(rounds))
      ensures Grows(old(CurrentTrace()), CurrentTrace())
      ensures Unfollowed(start, history.Keys) <= Unfollowed(start, old(history.Keys))
    {
      hide Invariant, Grows, UnseenIn, RefsKept, RootsResolved, LiveClosed, Unfollowed, NoneReached, RoundsOk;
      hide Accounted, RescuedOnce, KeySeen, SeenSet, LiveSince, RescuedBy, LiveSet;
      ghost var before, was, queue := CurrentTrace(), history, multiset(unchecked) + aside;
      FollowLiveEphemerons();
      ghost var queue' := multiset(unchecked) + aside;
      InvariantParts(CurrentPlan(), CurrentTrace(), history.Keys, bound, queue', []);
      LiveKeepsAccounted(CurrentPlan(), before, CurrentTrace(), was, history, was.Keys, bound, queue, rounds,
                         multiset(rescued));
      RootsStayDone(before);
      MarkedIsLive();
    }

    lemma MarkedIsLive()
      requires Quiet() && unchecked == [] && aside == multiset(unreached) && NoneReached() && Rescues() && RootsDone()
      requires BoundIsLive()
      ensures Marked() == LiveSet(start, AllRoots(), RescuedBy(rounds))
    {
      hide Invariant, RefsKept, RootsResolved, LiveClosed, RoundsOk, RescuedOnce, KeySeen, SeenSet, RescuedBy, LiveSet;
      ghost var queue := multiset(unchecked) + aside;
      assert queue == multiset(unreached);
      RootsTogether(CurrentPlan(), CurrentTrace(), startRoots, roots, startRefs, gcedRefs);
      LiveFixpoint(CurrentPlan(), CurrentTrace(), history.Keys, queue, AllRoots(), RescuedBy(rounds), roots + gcedRefs);
    }

    /** A rescue begins when just the ephemerons set apart are alive with a dead key. */
    lemma RoundStarts(r: Round)
      requires Quiet() && unchecked == [] && aside == multiset(unreached) && NoneReached() && Rescues()
      requires Marked() == LiveSet(start, AllRoots(), RescuedBy(rounds)) && ValidRoots(start, AllRoots())
      requires r == Round(Marked(), Originals(origin, unreached))
      ensures r.batch == Doomed(start, AllRoots(), RescuedBy(rounds)) && r.batch !! history.Keys
      ensures unreached == [] <==> r.batch == {}
      ensures unreached != [] ==> RoundsOk(start, AllRoots(), rounds + [r])
      ensures InPhases(CurrentPlan(), CurrentTrace(), history, rounds + [r])
      ensures Located(CurrentPlan(), CurrentTrace())
      ensures forall a :: a in history ==> Seen(CurrentPlan(), CurrentTrace(), a)
      ensures forall e :: e in unreached ==> multiset(unreached)[e] == 1 && origin[e] !in history
    {
      hide Invariant, RootsKept, RootsResolved, LiveClosed, RoundsOk, RescuedOnce, KeySeen, SeenSet, LiveSet, Accounted;
      hide RescuedBy, WellFormed, ValidRoots, Located, Doomed, Copied, InPhases;
      ghost var plan, t, queue := CurrentPlan(), CurrentTrace(), multiset(unreached);
      assert multiset(unchecked) + aside == queue;
      WaitingAreMarked(plan, t, history.Keys, bound, queue, []);
      RoundKeepsRounds(plan, t, history.Keys, bound, queue, AllRoots(), rounds, history, r.batch);
      RoundBegins(plan, t, history.Keys, bound, queue, rounds, history, r);
      if unreached != [] {
        InOriginals(origin, unreached, unreached[0]);
      }
    }

    /** A rescue begins: a new round, made of the ephemerons set apart, may mark what they keep
        alive. */
    ghost method BeginRound() returns (r: Round)
      requires Quiet() && unchecked == [] && aside == multiset(unreached) && NoneReached() && Rescues() && BoundIsLive()
      requires Marked() == LiveSet(start, AllRoots(), RescuedBy(rounds)) && ValidRoots(start, AllRoots())
      modifies `rounds, `bound
      ensures (forall e :: e in unreached ==> e in origin) && r == Round(Marked(), Originals(origin, unreached))
      ensures unreached == [] ==> rounds == old(rounds) && bound == old(bound)
      ensures unreached == [] ==> Doomed(start, AllRoots(), RescuedBy(rounds)) == {}
      ensures unreached != [] ==> rounds == old(rounds) + [r]
      ensures RoundsOk(start, AllRoots(), rounds) && RescuedBy(rounds) == RescuedBy(old(rounds)) + r.batch
      ensures InPhases(CurrentPlan(), CurrentTrace(), history, old(rounds) + [r])
      ensures Quiet() && BoundIsLive() && r.batch !! history.Keys && Located(CurrentPlan(), CurrentTrace())
      ensures forall a :: a in history ==> Seen(CurrentPlan(), CurrentTrace(), a)
      ensures forall e :: e in unreached ==> multiset(unreached)[e] == 1 && origin[e] !in history
    {
      hide Invariant, RootsKept, RootsResolved, LiveClosed, RoundsOk, RescuedOnce, KeySeen, SeenSet, LiveSet, Accounted;
      hide RescuedBy, WellFormed, ValidRoots, Located, Doomed, Copied, InPhases, Seen;
      ghost var plan, t, queue := CurrentPlan(), CurrentTrace(), multiset(unreached);
      assert multiset(unchecked) + aside == queue;
      r := Round(Marked(), Originals(origin, unreached));
      RoundStarts(r);
      RescuedByPush(rounds, r);
      if unreached != [] {
        ghost var wider := LiveSet(start, AllRoots(), RescuedBy(rounds + [r]));
        HistoryKeys(plan, t, history, rounds);
        LiveSetGrows(start, AllRoots(), RescuedBy(rounds), RescuedBy(rounds + [r]));
        LiveSetIsClosed(start, AllRoots(), RescuedBy(rounds + [r]));
        WidenBound(plan, t, history.Keys, bound, wider, queue, AllRoots(), RescuedBy(rounds + [r]));
        RefsWiden(plan, t, bound, wider, startRefs, gcedRefs);
        rounds, bound := rounds + [r], wider;
      }
    }

    /** The rescue of one pass: a new round, unless nothing was set apart. */
    method RescuePhase() returns (done: bool)
      requires Quiet() && unchecked == [] && aside == multiset(unreached) && NoneReached() && Rescues() && RootsDone()
      requires BoundIsLive() && ValidRoots(start, AllRoots())
      requires Marked() == LiveSet(start, AllRoots(), RescuedBy(rounds))
      modifies `memory, `forwarders, `origin, `unchecked, `stack, `gcedRefs, `scanned, `index, `limit
      modifies `history, `aside, `rescued, `unreached, `rounds, `bound
      ensures Quiet() && Grows(old(CurrentTrace()), CurrentTrace()) && Rescues() && BoundIsLive() && RootsDone()
      ensures unreached == [] && aside == multiset{}
      ensures !done ==> Unfollowed(start, history.Keys) < Unfollowed(start, old(history.Keys))
      ensures done ==> unchecked == []
    {
      hide Invariant, Grows, UnseenIn, RefsKept, RootsResolved, LiveClosed, Unfollowed, RoundsOk, RescuedOnce;
      hide SeenSet, Accounted, KeySeen, FollowedSince, LiveSet, RescuedBy, Doomed, ValidRoots, NoneReached, Seen;
      hide Located, Copied, WellFormed, InPhases;
      ghost var before, was, wasRounds, wasRescued, batch := CurrentTrace(), history, rounds, rescued, unreached;
      ghost var r := BeginRound();
      done := RescueUnreachableEphemerons();
      RootsStayDone(before);
      if done {
        NoOriginals(before.origin);
        assert history.Keys == was.Keys && rescued == wasRescued;
        SameHistory(CurrentPlan(), CurrentTrace(), was, r.seen, history);
      } else {
        EndRound(r, before, was, wasRounds, wasRescued, batch);
      }
    }

    lemma EndRound(r: Round, before: Trace, was: History, wasRounds: seq<Round>, wasRescued: seq<Address>,
                   batch: seq<Address>)
      requires Holds([]) && Located(CurrentPlan(), before) && Grows(before, CurrentTrace())
      requires Accounted(CurrentPlan(), before, was, wasRounds) && RescuedOnce(before, wasRounds, multiset(wasRescued))
      requires rounds == wasRounds + [r] && RoundsOk(start, AllRoots(), rounds)
      requires InPhases(CurrentPlan(), before, was, rounds) && r.seen == SeenSet(CurrentPlan(), before)
      requires history.Keys == was.Keys + r.batch && r.batch !! was.Keys && rescued == wasRescued + batch
      requires FollowedSince(CurrentPlan(), CurrentTrace(), was, r.seen, history)
      requires forall a :: a in was ==> Seen(CurrentPlan(), before, a)
      requires forall e :: e in batch ==>
        multiset(batch)[e] == 1 && e in before.origin && before.origin[e] !in was
      requires forall a :: a in r.batch <==> exists e :: e in batch && before.origin[e] == a
      ensures Rescues()
    {
      hide Invariant, Grows, RescuedOnce, FollowedSince, RoundsOk, RescuedBy, Accounted, Seen, InPhases, SeenSet;
      ghost var plan, t := CurrentPlan(), CurrentTrace();
      InvariantParts(plan, t, history.Keys, bound, multiset(unchecked) + aside, []);
      HistoryKeys(plan, before, was, wasRounds);
      RoundKeepsRescuedOnce(plan, before, t, was.Keys, multiset(batch), wasRounds, multiset(wasRescued), r);
      RoundKeepsAccounted(plan, before, t, was, history, wasRounds, r);
      assert multiset(rescued) == multiset(wasRescued) + multiset(batch);
    }

    ghost predicate RootsDone()
      requires CurrentPlan().Valid()
      reads `evacuated, `start, `memory, `forwarders, `origin, `startRoots, `roots
    {
      RootsResolved(CurrentPlan(), CurrentTrace(), startRoots, roots, |roots|)
    }

    lemma RootsStayDone(before: Trace)
      requires CurrentPlan().Valid() && Grows(before, CurrentTrace())
      requires RootsResolved(CurrentPlan(), before, startRoots, roots, |roots|)
      ensures RootsDone()
    {
      RootsGrow(CurrentPlan(), before, CurrentTrace(), bound, startRoots, roots, |roots|);
    }

    /** Alternates live phases and rescues until nothing is left to rescue. */
    method FollowEphemerons()
      requires CurrentPlan().Valid() && Quiet() && Rescues() && RootsDone() && ValidRoots(start, AllRoots())
      requires unreached == [] && aside == multiset{} && BoundIsLive()
      modifies `memory, `forwarders, `origin, `unchecked, `stack, `gcedRefs, `scanned, `index, `limit
      modifies `history, `aside, `rescued, `unreached, `rounds, `bound
      ensures Quiet() && Rescues() && RootsDone() && BoundIsLive()
      ensures unchecked == [] && unreached == [] && aside == multiset{}
      ensures Grows(old(CurrentTrace()), CurrentTrace())
    {
      hide Quiet, Rescues, Holds, Invariant, Grows, UnseenIn, RefsKept, RootsResolved, LiveClosed, Unfollowed;
      hide NoneReached, SeenSet, RootsDone, BoundIsLive, LiveSet, RescuedBy, ValidRoots;
      GrowsRefl(CurrentTrace());
      while true
        invariant CurrentPlan().Valid() && Quiet() && Rescues() && RootsDone() && BoundIsLive()
        invariant Grows(old(CurrentTrace()), CurrentTrace())
        invariant unreached == [] && aside == multiset{}
        decreases Unfollowed(start, history.Keys)
      {
        ghost var before := CurrentTrace();
        LivePhase();
        GrowsTrans(old(CurrentTrace()), before, CurrentTrace());
        before := CurrentTrace();
        var done := RescuePhase();
        GrowsTrans(old(CurrentTrace()), before, CurrentTrace());
        if done {
          break;
        }
      }
    }

    /** Starts a collection: nothing is forwarded, queued or waiting. */
    method InitializeLocals()
      modifies `forwarders, `stack, `unchecked, `unreached, `rescued
      ensures forwarders == map[] && stack == [] && unreached == [] && unchecked == [] && rescued == []
    {
      forwarders, stack, unchecked, unreached, rescued := map[], [], [], [], [];
    }

    /** Remembers, for the proof, how the collection started. */
    ghost method RememberStart()
      modifies `start, `startRoots, `startRefs, `origin, `history, `bound, `aside, `rounds
      ensures start == memory && startRoots == roots && startRefs == gcedRefs
      ensures bound == LiveSet(start, AllRoots(), {})
      ensures aside == multiset{} && rounds == [] && history == map[] && origin == map[]
    {
      hide LiveSet;
      start, startRoots, startRefs := memory, roots, gcedRefs;
      origin, history, aside, rounds := map[], map[], multiset{}, [];
      bound := LiveSet(memory, roots + gcedRefs, {});
    }

    lemma Initialized()
      requires CurrentPlan().Valid() && ValidRoots(start, AllRoots())
      requires start == memory && startRoots == roots && startRefs == gcedRefs
      requires bound == LiveSet(start, AllRoots(), {})
      requires unchecked == [] && aside == multiset{} && rounds == [] && history == map[] && origin == map[]
      requires forwarders == map[] && rescued == []
      ensures Holds([]) && LiveClosed(start, AllRoots(), RescuedBy(rounds), bound) && BoundIsLive()
      ensures RefsKept() && Rescues()
      ensures RootsKept(CurrentPlan(), CurrentTrace(), bound, startRoots, roots)
    {
      hide Invariant, LiveSet, LiveClosed, RootsKept, Accounted, RescuedOnce, WellFormed, ValidRoots;
      InitialState(CurrentPlan(), roots, gcedRefs);
      assert CurrentTrace() == Trace(start, map[], map[]);
      assert multiset(unchecked) + aside == multiset{} && history.Keys == {};
      assert RescuedBy(rounds) == {};
    }

    /** Marks from the roots, alternating with the ephemeron loops. */
    method FollowRoots()
      requires Holds([]) && stack == [] && RefsKept() && Rescues() && ValidRoots(start, AllRoots())
      requires RootsKept(CurrentPlan(), CurrentTrace(), bound, startRoots, roots)
      requires unchecked == [] && unreached == [] && aside == multiset{} && rounds == []
      requires rescued == [] && history == map[] && origin == map[]
      requires BoundIsLive() && LiveClosed(start, AllRoots(), RescuedBy(rounds), bound)
      modifies `memory, `forwarders, `origin, `unchecked, `stack, `roots, `gcedRefs, `scanned, `index, `limit
      modifies `history, `aside, `rescued, `unreached, `rounds, `bound
      ensures Quiet() && Rescues() && RootsDone() && BoundIsLive()
      ensures RootsResolved(CurrentPlan(), CurrentTrace(), startRefs, gcedRefs, |gcedRefs|)
      ensures unchecked == [] && unreached == [] && aside == multiset{}
    {
      hide Invariant, Grows, UnseenIn, RootsKept, RootsResolved, LiveClosed, LiveSet, Resolved;
      ghost var before := CurrentTrace();
      ScanCurrentContext();
      RootsGrow(CurrentPlan(), before, CurrentTrace(), bound, startRefs, gcedRefs, 0);
      before := CurrentTrace();
      FollowClosure();
      RootsStayDone(before);
      FollowEphemerons();
    }

    /** Rescued ephemerons are ordinary objects from now on. */
    method StrengthenAndMigrateEphemerons()
      requires forall e :: e in rescued ==> e in memory
      modifies `memory
      ensures memory.Keys == old(memory.Keys)
      ensures forall a :: a in memory ==>
        memory[a] == if a in rescued then old(memory)[a].(special := false) else old(memory)[a]
    {
      var k := 0;
      while k < |rescued|
        invariant k <= |rescued| && memory.Keys == old(memory.Keys) && forall e :: e in rescued ==> e in memory
        invariant forall a :: a in memory ==>
          memory[a] == if a in rescued[..k] then old(memory)[a].(special := false) else old(memory)[a]
      {
        memory := memory[rescued[k] := memory[rescued[k]].(special := false)];
        assert rescued[..k + 1] == rescued[..k] + [rescued[k]];
        k := k + 1;
      }
    }

    /** A whole collection. `traced` is the state once marking has ended: up to the addresses of
        the moved objects it holds the same graph as before, and every root and reference has
        been brought up to date. The ephemerons rescued are those of the rounds the old heap
        demands: each round has the ephemerons alive at that point, with their slots alive only
        if their key is or if an earlier round rescued them, whose keys are dead; and the rounds
        go on until there are none. Any other reachable ephemeron was followed while its key
        was marked, and each in the first phase that had it due. */
    method Collect() returns (ghost traced: Trace)
      requires zone.Valid() && |evacuated| == zone.MaxSpaces()
      requires WellFormed(memory) && ValidRoots(memory, roots + gcedRefs)
      modifies this
      ensures evacuated == old(evacuated)
      ensures var plan, allRoots := Plan(zone, evacuated, old(memory)), old(roots + gcedRefs);
        && plan.Valid()
        && SameGraph(plan, traced, allRoots)
        && RootsResolved(plan, traced, old(roots), roots, |roots|)
        && RootsResolved(plan, traced, old(gcedRefs), gcedRefs, |gcedRefs|)
        && LeftEmptied(zone, evacuated, traced, ReachableSet(old(memory), allRoots))
      ensures var allRoots := old(roots + gcedRefs);
        && AllRounds(old(memory), allRoots, rounds)
        && LiveSet(old(memory), allRoots, RescuedBy(rounds)) == ReachableSet(old(memory), allRoots)
        && RescuedOnce(traced, rounds, multiset(rescued))
        && Accounted(Plan(zone, evacuated, old(memory)), traced, history, rounds)
        && forall a :: a in ReachableSet(old(memory), allRoots) && old(memory)[a].special ==> a in history
      ensures forwarders == traced.forwarders && memory.Keys == traced.memory.Keys
      ensures forall a :: a in memory ==>
        memory[a] == if a in rescued then traced.memory[a].(special := false) else traced.memory[a]
    {
      hide Invariant, LiveSet, LiveClosed, RootsKept, RoundsOk, AllRounds, Accounted, RescuedOnce, WellFormed;
      hide ValidRoots, RootsResolved, SameGraph, KeySeen, Quiet, RescuedBy, Reachable, LeftEmptied;
      InitializeLocals();
      RememberStart();
      assert CurrentPlan().Valid();
      Initialized();
      FollowRoots();
      traced := CurrentTrace();
      AtTheEnd();
      StrengthenAndMigrateEphemerons();
    }

    lemma AtTheEnd()
      requires CurrentPlan().Valid() && Quiet() && Rescues() && RootsDone() && BoundIsLive()
      requires unchecked == [] && unreached == [] && aside == multiset{} && ValidRoots(start, AllRoots())
      ensures SameGraph(CurrentPlan(), CurrentTrace(), AllRoots()) && AllRounds(start, AllRoots(), rounds)
      ensures LiveSet(start, AllRoots(), RescuedBy(rounds)) == ReachableSet(start, AllRoots())
      ensures LeftEmptied(zone, evacuated, CurrentTrace(), ReachableSet(start, AllRoots()))
      ensures forall e :: e in rescued ==> e in memory
      ensures forall a :: a in ReachableSet(start, AllRoots()) && start[a].special ==> a in history
    {
      hide Invariant, RootsResolved, LiveClosed, RefsKept, Accounted, RoundsOk, AllRounds, SameGraph, KeySeen;
      hide Reachable, RescuedBy, LiveSet, ValidRoots, LeftEmptied, Located;
      assert multiset(unchecked) + aside == multiset{};
      ghost var plan, t := CurrentPlan(), CurrentTrace();
      RootsTogether(plan, t, startRoots, roots, startRefs, gcedRefs);
      HistoryKeys(plan, t, history, rounds);
      AllEphemeronsAccounted(plan, t, history.Keys, AllRoots(), roots + gcedRefs, rounds);
      InvariantParts(plan, t, history.Keys, bound, multiset{}, []);
      MarkedLeave(plan, t);
      MarkedIsReachable(plan, t, AllRoots());
      forall e | e in rescued
        ensures e in memory
      {
        assert multiset(rescued)[e] > 0;
        OriginInMemory(plan, t, e);
      }
    }
  }
}
