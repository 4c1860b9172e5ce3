/** What holds while the old heap is traced: the marking invariant and the two ways a
    step changes the heap, marking an object (perhaps moving it) and updating a pointer. */
module Marking {
  import opened Regions
  import opened Heap

  /** The object lies in a space that is being emptied. */
  predicate InEvacuatedSpace(zone: Zone, evacuated: seq<bool>, a: Address)
    requires zone.Valid() && |evacuated| == zone.MaxSpaces()
  {
    var index := zone.RegionIndexOf(a);
    RegionInRange(zone, a);
    index > 0 && evacuated[index - 1]
  }

  /** That is, between the beginning of one of those spaces and the end of its forwarder area. */
  lemma EmptiedExactly(zone: Zone, evacuated: seq<bool>, a: Address)
    requires zone.Valid() && |evacuated| == zone.MaxSpaces()
    ensures InEvacuatedSpace(zone, evacuated, a)
      <==> exists i :: 0 <= i < |evacuated| && evacuated[i]
                       && zone.SpaceBase(i + 1) <= a < zone.SpaceBase(i + 1) + 2 * SPACE_SIZE
  {
    RegionInRange(zone, a);
    var index := zone.RegionIndexOf(a);
    if InEvacuatedSpace(zone, evacuated, a) {
      IndexInvertsPlacement(zone, index, a);
      assert evacuated[index - 1];
    }
    if i :| 0 <= i < |evacuated| && evacuated[i]
            && zone.SpaceBase(i + 1) <= a < zone.SpaceBase(i + 1) + 2 * SPACE_SIZE {
      SpaceInZone(zone, i + 1);
      IndexInvertsPlacement(zone, i + 1, a);
    }
  }

  /** Fixed for one collection: the zone, the spaces to empty, and the heap as it was. */
  datatype Plan = Plan(zone: Zone, evacuated: seq<bool>, start: Memory) {

    ghost predicate Valid() {
      && zone.Valid()
      && |evacuated| == zone.MaxSpaces()
      && WellFormed(start)
    }

    predicate HasToEvacuate(a: Address)
      requires zone.Valid() && |evacuated| == zone.MaxSpaces()
    {
      InEvacuatedSpace(zone, evacuated, a)
    }
  }

  /** The heap now, the forwarders left for moved objects, and, for the proof, which old
      object each marked object stands for. */
  datatype Trace = Trace(memory: Memory, forwarders: map<Address, Address>, origin: map<Address, Address>)

  /** A range of positions of an object still to be scanned. */
  datatype Pending = Pending(scanned: Address, from: nat, to: nat)

  ghost predicate InWork(work: seq<Pending>, c: Address, i: nat) {
    exists p :: p in work && p.scanned == c && p.from <= i <= p.to
  }

  /** Where an old object lives once it is marked. */
  function NewAddress(plan: Plan, t: Trace, a: Address): Address
    requires plan.Valid()
    requires plan.HasToEvacuate(a) ==> a in t.forwarders
  {
    if plan.HasToEvacuate(a) then t.forwarders[a] else a
  }

  ghost predicate Seen(plan: Plan, t: Trace, a: Address)
    requires plan.Valid()
  {
    a in plan.start && a in t.memory && t.memory[a].seen
  }

  /** The value now is the old value with its target marked and its address brought up to date. */
  ghost predicate Resolved(plan: Plan, t: Trace, before: Value, now: Value)
    requires plan.Valid()
  {
    if before.Ref? then
      && Seen(plan, t, before.at)
      && (plan.HasToEvacuate(before.at) ==> before.at in t.forwarders)
      && now == Ref(NewAddress(plan, t, before.at))
    else
      now == before
  }

  /** An old object not marked yet is untouched; one that was moved keeps its old body. */
  ghost predicate OldUntouched(plan: Plan, t: Trace)
    requires plan.Valid()
  {
    forall a :: a in plan.start ==>
      && a in t.memory
      && (!t.memory[a].seen ==> t.memory[a] == plan.start[a])
      && (t.memory[a].seen && plan.HasToEvacuate(a) ==> t.memory[a] == plan.start[a].(seen := true))
  }

  /** Exactly the marked objects of emptied spaces are forwarded, to addresses not in use before. */
  ghost predicate Forwarded(plan: Plan, t: Trace)
    requires plan.Valid()
  {
    && (forall a :: a in t.forwarders ==> Seen(plan, t, a) && plan.HasToEvacuate(a) && t.forwarders[a] !in plan.start)
    && (forall a :: Seen(plan, t, a) && plan.HasToEvacuate(a) ==> a in t.forwarders)
  }

  /** `origin` maps the new address of each marked object back to the object, and nothing else. */
  ghost predicate OriginExact(plan: Plan, t: Trace)
    requires plan.Valid() && Forwarded(plan, t)
  {
    && (forall a :: Seen(plan, t, a) ==> NewAddress(plan, t, a) in t.origin && t.origin[NewAddress(plan, t, a)] == a)
    && (forall c :: c in t.origin ==>
          Seen(plan, t, t.origin[c]) && NewAddress(plan, t, t.origin[c]) == c && c in t.memory
            && !plan.HasToEvacuate(c))
    && (forall c :: c in t.memory ==> c in plan.start || c in t.origin)
  }

  /** Each old object is untouched, marked in place, or marked and copied exactly once. */
  ghost predicate Located(plan: Plan, t: Trace)
    requires plan.Valid()
  {
    OldUntouched(plan, t) && Forwarded(plan, t) && OriginExact(plan, t)
  }

  /** A marked object has the shape of the old one, and each of its pointers is either
      the old one or brought up to date. */
  ghost predicate Faithful(plan: Plan, t: Trace, now: Object, before: Object)
    requires plan.Valid()
  {
    && now.seen && now.isBytes == before.isBytes && now.special == before.special
    && now.remembered == before.remembered && |now.slots| == |before.slots|
    && (forall i: nat :: i <= |before.slots| ==>
          now.At(i) == before.At(i)
          || (i <= before.PointersSize() && Resolved(plan, t, before.At(i), now.At(i))))
  }

  ghost predicate Copied(plan: Plan, t: Trace)
    requires plan.Valid() && Located(plan, t)
  {
    forall c :: c in t.origin ==> Faithful(plan, t, t.memory[c], plan.start[t.origin[c]])
  }

  /** Positions whose target must be marked: an ephemeron's slots only once it is followed. */
  function Required(o: Object, followed: bool): nat {
    if followed then o.PointersSize() else o.StrongPointersSize()
  }

  /** Every position that has to be scanned is brought up to date or waits in the work list. */
  ghost predicate Covered(plan: Plan, t: Trace, followed: set<Address>, work: seq<Pending>)
    requires plan.Valid() && Located(plan, t) && Copied(plan, t)
  {
    forall c, i: nat :: c in t.origin && i <= Required(plan.start[t.origin[c]], t.origin[c] in followed) ==>
      InWork(work, c, i) || Resolved(plan, t, plan.start[t.origin[c]].At(i), t.memory[c].At(i))
  }

  /** The work list names marked objects and positions that may be scanned. */
  ghost predicate WorkOk(plan: Plan, t: Trace, followed: set<Address>, work: seq<Pending>)
    requires plan.Valid() && Located(plan, t)
  {
    forall p :: p in work ==>
      p.scanned in t.origin && p.to <= Required(plan.start[t.origin[p.scanned]], t.origin[p.scanned] in followed)
  }

  /** A set closed under the edges that may be followed. */
  ghost predicate Bound(plan: Plan, followed: set<Address>, bound: set<Address>)
    requires plan.Valid()
  {
    forall a, i: nat {:trigger plan.start[a].At(i), a in bound} ::
      a in bound && a in plan.start && i <= Required(plan.start[a], a in followed) && plan.start[a].At(i).Ref? ==>
        plan.start[a].At(i).at in bound
  }

  /** The marked ephemerons not followed yet, each exactly once. */
  ghost predicate Waiting(plan: Plan, t: Trace, followed: set<Address>, queue: multiset<Address>)
    requires plan.Valid() && Located(plan, t)
  {
    forall c ::
      queue[c] == if c in t.origin && plan.start[t.origin[c]].special && t.origin[c] !in followed then 1 else 0
  }

  ghost predicate Invariant(plan: Plan, t: Trace, followed: set<Address>, bound: set<Address>,
                            queue: multiset<Address>, work: seq<Pending>) {
    && plan.Valid() && Located(plan, t) && Copied(plan, t)
    && Covered(plan, t, followed, work) && WorkOk(plan, t, followed, work)
    && Bound(plan, followed, bound)
    && (forall a :: Seen(plan, t, a) ==> a in bound)
    && (forall a :: a in followed ==> Seen(plan, t, a) && plan.start[a].special)
    && Waiting(plan, t, followed, queue)
  }

  /** Marks are never taken back and forwarders never change. */
  ghost predicate Grows(t: Trace, t': Trace) {
    && (forall a :: a in t.memory && t.memory[a].seen ==> a in t'.memory && t'.memory[a].seen)
    && (forall a :: a in t.forwarders ==> a in t'.forwarders && t'.forwarders[a] == t.forwarders[a])
    && (forall c :: c in t.origin ==> c in t'.origin && t'.origin[c] == t.origin[c])
  }

  lemma GrowsRefl(t: Trace)
    ensures Grows(t, t) && SameButSeen(t.memory, t.memory)
  {}

  lemma GrowsTrans(t: Trace, t': Trace, t'': Trace)
    requires Grows(t, t') && Grows(t', t'')
    ensures Grows(t, t'')
  {}

  lemma GrowsOrigin(t: Trace, t': Trace, c: Address)
    requires Grows(t, t') && c in t.origin
    ensures c in t'.origin && t'.origin[c] == t.origin[c]
  {}

  lemma InvariantParts(plan: Plan, t: Trace, followed: set<Address>, bound: set<Address>,
                       queue: multiset<Address>, work: seq<Pending>)
    requires Invariant(plan, t, followed, bound, queue, work)
    ensures plan.Valid() && Located(plan, t) && Copied(plan, t)
    ensures forall a :: a in t.memory ==> a in plan.start || a in t.origin
  {}

  // ---- marking an object for the first time

  /** The heap after `b` is marked; `c` is `b` itself or the address of its copy. */
  function MarkAt(plan: Plan, t: Trace, b: Address, c: Address): Trace
    requires plan.Valid() && b in t.memory
  {
    var seen := t.memory[b].(seen := true);
    Trace(t.memory[b := seen][c := seen],
          if plan.HasToEvacuate(b) then t.forwarders[b := c] else t.forwarders,
          t.origin[c := b])
  }

  ghost predicate CanMark(plan: Plan, t: Trace, b: Address, c: Address)
    requires plan.Valid() && Located(plan, t)
  {
    && b in plan.start && !t.memory[b].seen
    && (if plan.HasToEvacuate(b) then c !in t.memory && !plan.HasToEvacuate(c) else c == b)
  }

  lemma MarkGrowsOnly(plan: Plan, t: Trace, b: Address, c: Address)
    requires plan.Valid() && Located(plan, t) && CanMark(plan, t, b, c)
    ensures Grows(t, MarkAt(plan, t, b, c))
  {
    hide OldUntouched;
    assert c !in t.origin;
  }

  lemma MarkKeepsOld(plan: Plan, t: Trace, b: Address, c: Address)
    requires plan.Valid() && Located(plan, t) && CanMark(plan, t, b, c)
    ensures OldUntouched(plan, MarkAt(plan, t, b, c))
  {
    hide Forwarded, OriginExact;
    var t' := MarkAt(plan, t, b, c);
    assert forall a :: a in t.memory && a != b && a != c ==> t'.memory[a] == t.memory[a];
  }

  lemma MarkGrows(plan: Plan, t: Trace, b: Address, c: Address)
    requires plan.Valid() && Located(plan, t) && CanMark(plan, t, b, c)
    ensures var t' := MarkAt(plan, t, b, c);
            Grows(t, t') && OldUntouched(plan, t') && Forwarded(plan, t')
  {
    assert c !in t.origin;
    MarkGrowsOnly(plan, t, b, c);
    MarkKeepsOld(plan, t, b, c);
    hide Grows, OldUntouched;
  }

  lemma MarkKeepsLocated(plan: Plan, t: Trace, b: Address, c: Address)
    requires plan.Valid() && Located(plan, t) && CanMark(plan, t, b, c)
    ensures Located(plan, MarkAt(plan, t, b, c)) && Grows(t, MarkAt(plan, t, b, c))
  {
    var t' := MarkAt(plan, t, b, c);
    MarkGrows(plan, t, b, c);
    forall a | Seen(plan, t', a)
      ensures NewAddress(plan, t', a) in t'.origin && t'.origin[NewAddress(plan, t', a)] == a
    {
      if a != b {
        assert Seen(plan, t, a);
        assert NewAddress(plan, t, a) in t.origin;
      }
    }
    forall d | d in t'.origin
      ensures Seen(plan, t', t'.origin[d]) && NewAddress(plan, t', t'.origin[d]) == d && d in t'.memory
      ensures !plan.HasToEvacuate(d)
    {
      if d != c {
        assert Seen(plan, t, t.origin[d]);
      }
    }
  }

  lemma MarkKeepsCopied(plan: Plan, t: Trace, b: Address, c: Address)
    requires plan.Valid() && Located(plan, t) && Copied(plan, t) && CanMark(plan, t, b, c)
    ensures Located(plan, MarkAt(plan, t, b, c)) && Copied(plan, MarkAt(plan, t, b, c))
  {
    var t' := MarkAt(plan, t, b, c);
    MarkKeepsLocated(plan, t, b, c);
    forall d | d in t'.origin
      ensures Faithful(plan, t', t'.memory[d], plan.start[t'.origin[d]])
    {
      if d != c {
        assert t'.memory[d] == t.memory[d];
        assert Faithful(plan, t, t.memory[d], plan.start[t.origin[d]]);
      }
    }
  }

  /** Apart from mark bits, the objects of `before` are as they were. */
  ghost predicate SameButSeen(before: Memory, after: Memory) {
    forall x :: x in before ==> x in after && after[x] == before[x].(seen := after[x].seen)
  }

  /** The positions of the object just marked wait; the others are as they were. */
  lemma MarkKeepsCovered(plan: Plan, t: Trace, followed: set<Address>, work: seq<Pending>, b: Address, c: Address)
    requires plan.Valid() && Located(plan, t) && Copied(plan, t) && CanMark(plan, t, b, c)
    requires Covered(plan, t, followed, work) && WorkOk(plan, t, followed, work) && b !in followed
    ensures var t' := MarkAt(plan, t, b, c);
      var work' := work + [Pending(c, 0, plan.start[b].StrongPointersSize())];
      Located(plan, t') && Copied(plan, t') && Covered(plan, t', followed, work') && WorkOk(plan, t', followed, work')
  {
    var t' := MarkAt(plan, t, b, c);
    var size := plan.start[b].StrongPointersSize();
    var work' := work + [Pending(c, 0, size)];
    MarkKeepsCopied(plan, t, b, c);
    MarkKeepsLocated(plan, t, b, c);
    hide Located, Copied, Faithful;
    forall d, i: nat | d in t'.origin && i <= Required(plan.start[t'.origin[d]], t'.origin[d] in followed)
      ensures InWork(work', d, i) || Resolved(plan, t', plan.start[t'.origin[d]].At(i), t'.memory[d].At(i))
    {
      if d == c {
        assert Pending(c, 0, size) in work';
      } else if InWork(work, d, i) {
        var p :| p in work && p.scanned == d && p.from <= i <= p.to;
        assert p in work';
      }
    }
  }

  /** An ephemeron just marked waits, as those did that were marked before. */
  lemma MarkKeepsWaiting(plan: Plan, t: Trace, followed: set<Address>, bound: set<Address>,
                         queue: multiset<Address>, work: seq<Pending>, b: Address, c: Address)
    requires Invariant(plan, t, followed, bound, queue, work) && CanMark(plan, t, b, c)
    ensures var t' := MarkAt(plan, t, b, c);
      Located(plan, t') && b !in followed
      && Waiting(plan, t', followed, if plan.start[b].special then queue + multiset{c} else queue)
  {
    MarkKeepsLocated(plan, t, b, c);
    hide Copied, Covered, WorkOk, Bound;
    assert c !in t.origin;
  }

  /** Marking one more object keeps the invariant once the positions it needs are queued. */
  lemma MarkKeepsInvariant(plan: Plan, t: Trace, followed: set<Address>, bound: set<Address>,
                           queue: multiset<Address>, work: seq<Pending>, b: Address, c: Address)
    requires Invariant(plan, t, followed, bound, queue, work) && CanMark(plan, t, b, c) && b in bound
    ensures var size := plan.start[b].StrongPointersSize();
            Invariant(plan, MarkAt(plan, t, b, c), followed, bound,
                      if plan.start[b].special then queue + multiset{c} else queue,
                      work + [Pending(c, 0, size)])
    ensures Grows(t, MarkAt(plan, t, b, c))
    ensures Resolved(plan, MarkAt(plan, t, b, c), Ref(b), Ref(c))
    ensures MarkAt(plan, t, b, c).memory[c] == plan.start[b].(seen := true)
    ensures SameButSeen(t.memory, MarkAt(plan, t, b, c).memory)
    ensures UnseenIn(plan.start, MarkAt(plan, t, b, c).memory) < UnseenIn(plan.start, t.memory)
  {
    var t' := MarkAt(plan, t, b, c);
    var size := plan.start[b].StrongPointersSize();
    var work' := work + [Pending(c, 0, size)];
    MarkKeepsCopied(plan, t, b, c);
    MarkKeepsLocated(plan, t, b, c);
    UnseenShrinks(plan.start, t.memory, t'.memory, b);
    MarkKeepsCovered(plan, t, followed, work, b, c);
    MarkKeepsWaiting(plan, t, followed, bound, queue, work, b, c);
  }

  // ---- bringing one pointer up to date

  function StoreAt(t: Trace, c: Address, i: nat, v: Value): Trace
    requires c in t.memory && i <= |t.memory[c].slots|
  {
    t.(memory := t.memory[c := t.memory[c].Put(i, v)])
  }

  lemma PutAt(o: Object, i: nat, v: Value, j: nat)
    requires i <= |o.slots| && j <= |o.slots|
    ensures o.Put(i, v).At(j) == if i == j then v else o.At(j)
  {}

  lemma StoreKeepsLocated(plan: Plan, t: Trace, c: Address, i: nat, v: Value)
    requires plan.Valid() && Located(plan, t) && c in t.origin && i <= |t.memory[c].slots| && t.memory[c].seen
    ensures Located(plan, StoreAt(t, c, i, v)) && Grows(t, StoreAt(t, c, i, v))
  {
    var t' := StoreAt(t, c, i, v);
    assert forall a :: Seen(plan, t', a) == Seen(plan, t, a);
    forall a | Seen(plan, t', a)
      ensures NewAddress(plan, t', a) in t'.origin && t'.origin[NewAddress(plan, t', a)] == a
    {
      assert NewAddress(plan, t', a) == NewAddress(plan, t, a);
    }
  }

  lemma StoreKeepsResolved(plan: Plan, t: Trace, c: Address, i: nat, v: Value, before: Value, now: Value)
    requires plan.Valid() && Located(plan, t) && c in t.origin && i <= |t.memory[c].slots| && t.memory[c].seen
    ensures Resolved(plan, t, before, now) ==> Resolved(plan, StoreAt(t, c, i, v), before, now)
  {}

  lemma StoreKeepsCopied(plan: Plan, t: Trace, c: Address, i: nat, v: Value)
    requires plan.Valid() && Located(plan, t) && Copied(plan, t)
    requires c in t.origin && i <= plan.start[t.origin[c]].PointersSize() && i <= |t.memory[c].slots|
    requires Resolved(plan, t, plan.start[t.origin[c]].At(i), v)
    ensures Located(plan, StoreAt(t, c, i, v)) && Copied(plan, StoreAt(t, c, i, v)) && Grows(t, StoreAt(t, c, i, v))
  {
    var t' := StoreAt(t, c, i, v);
    assert Faithful(plan, t, t.memory[c], plan.start[t.origin[c]]);
    StoreKeepsLocated(plan, t, c, i, v);
    forall d | d in t'.origin
      ensures Faithful(plan, t', t'.memory[d], plan.start[t'.origin[d]])
    {
      var before, now := plan.start[t.origin[d]], t.memory[d];
      assert Faithful(plan, t, now, before);
      forall j: nat | j <= |before.slots|
        ensures var here := t'.memory[d].At(j);
                here == before.At(j) || (j <= before.PointersSize() && Resolved(plan, t', before.At(j), here))
      {
        StoreKeepsResolved(plan, t, c, i, v, before.At(j), now.At(j));
        StoreKeepsResolved(plan, t, c, i, v, before.At(j), v);
        PutAt(t.memory[c], i, v, if d == c then j else i);
      }
    }
  }

  /** Storing the new address of a marked target keeps everything but the stored position,
      and that one no longer needs to be scanned. */
  lemma StoreKeepsInvariant(plan: Plan, t: Trace, followed: set<Address>, bound: set<Address>,
                            queue: multiset<Address>, work: seq<Pending>, work': seq<Pending>, c: Address, i: nat,
                              v: Value)
    requires Invariant(plan, t, followed, bound, queue, work) && WorkOk(plan, t, followed, work')
    requires c in t.origin && i <= plan.start[t.origin[c]].PointersSize()
    requires i <= |t.memory[c].slots|
    requires Resolved(plan, t, plan.start[t.origin[c]].At(i), v)
    requires forall d, j: nat :: InWork(work, d, j) ==> InWork(work', d, j) || (d == c && j == i)
    ensures Invariant(plan, StoreAt(t, c, i, v), followed, bound, queue, work')
    ensures Grows(t, StoreAt(t, c, i, v))
  {
    var t' := StoreAt(t, c, i, v);
    StoreKeepsCopied(plan, t, c, i, v);
    StoreKeepsCovered(plan, t, followed, work, work', c, i, v);
    assert forall a :: Seen(plan, t', a) == Seen(plan, t, a);
  }

  /** A store marks nothing. */
  lemma StoreKeepsUnseen(plan: Plan, t: Trace, c: Address, i: nat, v: Value)
    requires c in t.memory && i <= |t.memory[c].slots|
    ensures UnseenIn(plan.start, StoreAt(t, c, i, v).memory) == UnseenIn(plan.start, t.memory)
  {
    var t' := StoreAt(t, c, i, v);
    assert forall a :: a in t.memory ==> a in t'.memory && t'.memory[a].seen == t.memory[a].seen;
    assert t'.memory.Keys == t.memory.Keys;
  }

  lemma StoreKeepsCovered(plan: Plan, t: Trace, followed: set<Address>, work: seq<Pending>, work': seq<Pending>,
                          c: Address, i: nat, v: Value)
    requires plan.Valid() && Located(plan, t) && Copied(plan, t) && Covered(plan, t, followed, work)
    requires c in t.origin && i <= plan.start[t.origin[c]].PointersSize() && i <= |t.memory[c].slots|
    requires Resolved(plan, t, plan.start[t.origin[c]].At(i), v)
    requires forall d, j: nat :: InWork(work, d, j) ==> InWork(work', d, j) || (d == c && j == i)
    requires Located(plan, StoreAt(t, c, i, v)) && Copied(plan, StoreAt(t, c, i, v))
    ensures Covered(plan, StoreAt(t, c, i, v), followed, work')
  {
    var t' := StoreAt(t, c, i, v);
    forall d, j: nat | d in t'.origin && j <= Required(plan.start[t'.origin[d]], t'.origin[d] in followed)
      ensures InWork(work', d, j) || Resolved(plan, t', plan.start[t'.origin[d]].At(j), t'.memory[d].At(j))
    {
      var before := plan.start[t.origin[d]];
      assert Faithful(plan, t, t.memory[d], before);
      StoreKeepsResolved(plan, t, c, i, v, before.At(j), t.memory[d].At(j));
      StoreKeepsResolved(plan, t, c, i, v, before.At(j), v);
      PutAt(t.memory[c], i, v, if d == c then j else i);
    }
  }

  // ---- changes to the work list alone

  /** A position already up to date may leave the work list. */
  lemma DropKeepsInvariant(plan: Plan, t: Trace, followed: set<Address>, bound: set<Address>,
                           queue: multiset<Address>, work: seq<Pending>, work': seq<Pending>, c: Address, i: nat)
    requires Invariant(plan, t, followed, bound, queue, work) && WorkOk(plan, t, followed, work')
    requires c in t.origin && i <= plan.start[t.origin[c]].PointersSize() && i <= |t.memory[c].slots|
    requires Resolved(plan, t, plan.start[t.origin[c]].At(i), t.memory[c].At(i))
    requires forall d, j: nat :: InWork(work, d, j) ==> InWork(work', d, j) || (d == c && j == i)
    ensures Invariant(plan, t, followed, bound, queue, work')
  {}

  /** An empty range may leave the work list. */
  lemma DropEmptyKeepsInvariant(plan: Plan, t: Trace, followed: set<Address>, bound: set<Address>,
                                queue: multiset<Address>, work: seq<Pending>, p: Pending)
    requires Invariant(plan, t, followed, bound, queue, work + [p]) && p.from > p.to
    ensures Invariant(plan, t, followed, bound, queue, work)
  {
    assert forall q :: q in work ==> q in work + [p];
    forall d, i: nat | InWork(work + [p], d, i)
      ensures InWork(work, d, i)
    {
      var q :| q in work + [p] && q.scanned == d && q.from <= i <= q.to;
      assert q in work;
    }
  }

  /** Following a waiting ephemeron: its slots are queued and it waits no longer. */
  lemma FollowKeepsInvariant(plan: Plan, t: Trace, followed: set<Address>, bound: set<Address>,
                             queue: multiset<Address>, e: Address)
    requires Invariant(plan, t, followed, bound, queue, []) && queue[e] > 0
    requires Bound(plan, followed + {t.origin[e]}, bound)
    ensures Invariant(plan, t, followed + {t.origin[e]}, bound, queue - multiset{e},
      [Pending(e, 1, |t.memory[e].slots|)])
  {
    var a := t.origin[e];
    var work := [Pending(e, 1, |t.memory[e].slots|)];
    assert Faithful(plan, t, t.memory[e], plan.start[a]);
    assert forall d, i: nat :: !InWork([], d, i);
    forall d, i: nat | d in t.origin && i <= Required(plan.start[t.origin[d]], t.origin[d] in followed + {a})
      ensures InWork(work, d, i) || Resolved(plan, t, plan.start[t.origin[d]].At(i), t.memory[d].At(i))
    {
      if t.origin[d] == a {
        assert d == e;
        assert Pending(e, 1, |t.memory[e].slots|) in work;
      }
    }
  }

  // ---- what a scanned pointer can be

  /** The value found at a position to scan is the old one, or already up to date; its target
      is in memory, and if the target is not marked it is an old object inside the bound. */
  lemma TargetCases(plan: Plan, t: Trace, followed: set<Address>, bound: set<Address>,
                    queue: multiset<Address>, work: seq<Pending>, p: Pending)
    requires Invariant(plan, t, followed, bound, queue, work) && p in work && p.from <= p.to
    ensures p.scanned in t.origin && p.scanned in t.memory && t.origin[p.scanned] in plan.start
    ensures p.from <= plan.start[t.origin[p.scanned]].PointersSize() && p.from <= |t.memory[p.scanned].slots|
    ensures var c, i := p.scanned, p.from;
            var before, now := plan.start[t.origin[c]].At(i), t.memory[c].At(i);
            && (!now.Ref? ==> now == before && Resolved(plan, t, before, now) && (i == 0 ==> !now.Null?))
            && (now.Ref? ==> now.at in t.memory)
            && (now.Ref? && t.memory[now.at].seen ==>
                  && (plan.HasToEvacuate(now.at) ==> now.at in t.forwarders)
                  && Resolved(plan, t, before, Ref(NewAddress(plan, t, now.at))))
            && (now.Ref? && !t.memory[now.at].seen ==> now == before && now.at in plan.start && now.at in bound)
  {
    var c, i, a := p.scanned, p.from, t.origin[p.scanned];
    assert Faithful(plan, t, t.memory[c], plan.start[a]);
    var before, now := plan.start[a].At(i), t.memory[c].At(i);
    assert Points(plan.start, before);
    if before.Ref? && now == before {
      assert before.at in bound;
    } else if before.Ref? {
      assert Resolved(plan, t, before, now);
      assert now.at in t.origin && t.origin[now.at] == before.at;
      assert Faithful(plan, t, t.memory[now.at], plan.start[before.at]);
    }
  }

  // ---- one scanning step

  /** The rest of a range may be scanned as the range may. */
  lemma LaterWorkOk(plan: Plan, t: Trace, followed: set<Address>, bound: set<Address>,
                    queue: multiset<Address>, work: seq<Pending>, work': seq<Pending>, p: Pending)
    requires Invariant(plan, t, followed, bound, queue, work) && p in work
    requires forall q :: q in work' ==> q in work || q == p.(from := p.from + 1)
    ensures Located(plan, t) && WorkOk(plan, t, followed, work') && p.scanned in t.memory
  {}

  /** The target was marked already: its address is stored and the scan moves on. */
  lemma StepOver(plan: Plan, t: Trace, followed: set<Address>, bound: set<Address>,
                 queue: multiset<Address>, stack: seq<Pending>, p: Pending, v: Value)
    requires Invariant(plan, t, followed, bound, queue, stack + [p]) && p.from <= p.to
    requires p.scanned in t.origin && p.from <= plan.start[t.origin[p.scanned]].PointersSize()
    requires p.from <= |t.memory[p.scanned].slots|
    requires Resolved(plan, t, plan.start[t.origin[p.scanned]].At(p.from), v)
    ensures Invariant(plan, StoreAt(t, p.scanned, p.from, v), followed, bound, queue, stack + [p.(from := p.from + 1)])
    ensures Grows(t, StoreAt(t, p.scanned, p.from, v))
    ensures UnseenIn(plan.start, StoreAt(t, p.scanned, p.from, v).memory) == UnseenIn(plan.start, t.memory)
  {
    var work, work' := stack + [p], stack + [p.(from := p.from + 1)];
    assert p in work;
    LaterRange(stack, p, []);
    assert work' == stack + [p.(from := p.from + 1)] + [];
    forall q | q in work'
      ensures q in work || q == p.(from := p.from + 1)
    {}
    LaterWorkOk(plan, t, followed, bound, queue, work, work', p);
    StoreKeepsUnseen(plan, t, p.scanned, p.from, v);
    hide Located, Copied, Covered, WorkOk, Bound, Waiting, Resolved, Faithful, Grows, InWork, UnseenIn;
    StoreKeepsInvariant(plan, t, followed, bound, queue, work, work', p.scanned, p.from, v);
  }

  /** What is left of a range, if anything, goes on the stack. */
  function RestQueued(stack: seq<Pending>, p: Pending): seq<Pending> {
    if p.from < p.to then stack + [p.(from := p.from + 1)] else stack
  }

  /** The target has just been marked, at `c`: its address is stored, the rest of the range is
      kept for later, and the scan turns to the target. */
  lemma StepInto(plan: Plan, t: Trace, followed: set<Address>, bound: set<Address>,
                 queue: multiset<Address>, stack: seq<Pending>, p: Pending, c: Address, size: nat)
    requires Invariant(plan, t, followed, bound, queue, stack + [p] + [Pending(c, 0, size)]) && p.from <= p.to
    requires p.scanned in t.origin && p.from <= plan.start[t.origin[p.scanned]].PointersSize()
    requires p.from <= |t.memory[p.scanned].slots|
    requires Resolved(plan, t, plan.start[t.origin[p.scanned]].At(p.from), Ref(c))
    ensures Invariant(plan, StoreAt(t, p.scanned, p.from, Ref(c)), followed, bound, queue,
      RestQueued(stack, p) + [Pending(c, 0, size)])
    ensures Grows(t, StoreAt(t, p.scanned, p.from, Ref(c)))
    ensures UnseenIn(plan.start, StoreAt(t, p.scanned, p.from, Ref(c)).memory) == UnseenIn(plan.start, t.memory)
  {
    var into := [Pending(c, 0, size)];
    var work, work' := stack + [p] + into, RestQueued(stack, p) + into;
    assert p in work;
    LaterRange(stack, p, into);
    forall q | q in work'
      ensures q in work || q == p.(from := p.from + 1)
    {}
    LaterWorkOk(plan, t, followed, bound, queue, work, work', p);
    StoreKeepsUnseen(plan, t, p.scanned, p.from, Ref(c));
    hide Located, Copied, Covered, WorkOk, Bound, Waiting, Resolved, Faithful, Grows, InWork, UnseenIn;
    StoreKeepsInvariant(plan, t, followed, bound, queue, work, work', p.scanned, p.from, Ref(c));
  }

  /** Taking the first position off a range takes just that position off the work list. */
  lemma LaterRange(stack: seq<Pending>, p: Pending, more: seq<Pending>)
    ensures forall d, j: nat :: InWork(stack + [p] + more, d, j) ==>
      InWork(stack + [p.(from := p.from + 1)] + more, d, j) || (d == p.scanned && j == p.from)
    ensures forall d, j: nat :: InWork(stack + [p] + more, d, j) && p.from >= p.to ==>
      InWork(stack + more, d, j) || (d == p.scanned && j == p.from)
  {
    var later := p.(from := p.from + 1);
    forall d, j: nat | InWork(stack + [p] + more, d, j) && !(d == p.scanned && j == p.from)
      ensures InWork(stack + [later] + more, d, j)
      ensures p.from >= p.to ==> InWork(stack + more, d, j)
    {
      var q :| q in stack + [p] + more && q.scanned == d && q.from <= j <= q.to;
      if q in stack || q in more {
        assert q in stack + [later] + more && q in stack + more;
      } else {
        assert later in stack + [later] + more;
      }
    }
  }

  /** The position holds no pointer: nothing to store, the scan moves on. */
  lemma StepPast(plan: Plan, t: Trace, followed: set<Address>, bound: set<Address>,
                 queue: multiset<Address>, stack: seq<Pending>, p: Pending)
    requires Invariant(plan, t, followed, bound, queue, stack + [p]) && p.from <= p.to
    requires p.scanned in t.origin && p.from <= plan.start[t.origin[p.scanned]].PointersSize()
    requires p.from <= |t.memory[p.scanned].slots|
    requires Resolved(plan, t, plan.start[t.origin[p.scanned]].At(p.from), t.memory[p.scanned].At(p.from))
    ensures Invariant(plan, t, followed, bound, queue, stack + [p.(from := p.from + 1)])
  {
    var work, work' := stack + [p], stack + [p.(from := p.from + 1)];
    assert p in work;
    LaterRange(stack, p, []);
    assert work + [] == work && work' + [] == work';
    forall q | q in work'
      ensures q in work || q == p.(from := p.from + 1)
    {}
    DropKeepsInvariant(plan, t, followed, bound, queue, work, work', p.scanned, p.from);
  }

  // ---- roots

  /** A root the collector may hold: what it was at the start, or that brought up to date. */
  ghost predicate RootKept(plan: Plan, t: Trace, bound: set<Address>, before: Value, now: Value)
    requires plan.Valid()
  {
    && !before.Null? && (before.Ref? ==> before.at in plan.start && before.at in bound)
    && (now == before || Resolved(plan, t, before, now))
  }

  ghost predicate RootsKept(plan: Plan, t: Trace, bound: set<Address>, before: seq<Value>, now: seq<Value>)
    requires plan.Valid()
  {
    |now| == |before| && forall k :: 0 <= k < |now| ==> RootKept(plan, t, bound, before[k], now[k])
  }

  /** The first `count` roots are up to date. */
  ghost predicate RootsResolved(plan: Plan, t: Trace, before: seq<Value>, now: seq<Value>, count: nat)
    requires plan.Valid()
  {
    |now| == |before| && count <= |now| && forall k :: 0 <= k < count ==> Resolved(plan, t, before[k], now[k])
  }

  lemma RootsGrow(plan: Plan, t: Trace, t': Trace, bound: set<Address>, before: seq<Value>, now: seq<Value>, count: nat)
    requires plan.Valid() && Grows(t, t')
    ensures RootsKept(plan, t, bound, before, now) ==> RootsKept(plan, t', bound, before, now)
    ensures RootsResolved(plan, t, before, now, count) ==> RootsResolved(plan, t', before, now, count)
  {}

  lemma RefsWiden(plan: Plan, t: Trace, bound: set<Address>, wider: set<Address>, before: seq<Value>, now: seq<Value>)
    requires plan.Valid() && bound <= wider && RootsKept(plan, t, bound, before, now)
    ensures RootsKept(plan, t, wider, before, now)
  {
    forall k | 0 <= k < |now|
      ensures RootKept(plan, t, wider, before[k], now[k])
    {
      assert RootKept(plan, t, bound, before[k], now[k]);
    }
  }

  lemma RootsStep(plan: Plan, t: Trace, t': Trace, bound: set<Address>, before: seq<Value>, now: seq<Value>, k: nat,
                  r: Value)
    requires plan.Valid() && Grows(t, t') && k < |now|
    requires RootsKept(plan, t, bound, before, now) && RootsResolved(plan, t, before, now, k)
    requires Resolved(plan, t', before[k], r)
    ensures RootsKept(plan, t', bound, before, now[k := r]) && RootsResolved(plan, t', before, now[k := r], k + 1)
  {}

  lemma RootCases(plan: Plan, t: Trace, followed: set<Address>, bound: set<Address>,
                  queue: multiset<Address>, work: seq<Pending>, before: Value, now: Value)
    requires Invariant(plan, t, followed, bound, queue, work) && RootKept(plan, t, bound, before, now)
    ensures !now.Null? && (!now.Ref? ==> Resolved(plan, t, before, now))
    ensures now.Ref? ==> now.at in t.memory
    ensures now.Ref? && t.memory[now.at].seen ==>
      (plan.HasToEvacuate(now.at) ==> now.at in t.forwarders)
        && Resolved(plan, t, before, Ref(NewAddress(plan, t, now.at)))
    ensures now.Ref? && !t.memory[now.at].seen ==> now == before && now.at in plan.start && now.at in bound
  {
    if before.Ref? && now != before {
      assert now.at in t.origin && t.origin[now.at] == before.at;
      assert Faithful(plan, t, t.memory[now.at], plan.start[before.at]);
    }
  }

  // ---- ephemerons

  ghost predicate KeySeen(plan: Plan, t: Trace, a: Address)
    requires plan.Valid() && a in plan.start && plan.start[a].special
  {
    plan.start[a].slots[0].Small? || Seen(plan, t, plan.start[a].slots[0].at)
  }

  lemma WaitingAreMarked(plan: Plan, t: Trace, followed: set<Address>, bound: set<Address>,
                         queue: multiset<Address>, work: seq<Pending>)
    requires Invariant(plan, t, followed, bound, queue, work)
    ensures forall e :: e in queue ==>
      && queue[e] == 1 && e in t.origin && t.origin[e] in plan.start && plan.start[t.origin[e]].special
      && t.origin[e] !in followed && Seen(plan, t, t.origin[e])
    ensures Located(plan, t) && forall a :: a in followed ==> Seen(plan, t, a)
  {}

  /** Reading the key of a marked ephemeron where it lives now tells whether its key is marked. */
  lemma KeyCheck(plan: Plan, t: Trace, followed: set<Address>, bound: set<Address>,
                 queue: multiset<Address>, work: seq<Pending>, e: Address)
    requires Invariant(plan, t, followed, bound, queue, work) && queue[e] > 0
    ensures e in t.origin && t.origin[e] in plan.start && plan.start[t.origin[e]].special && t.origin[e] !in followed
    ensures e in t.memory && |t.memory[e].slots| == |plan.start[t.origin[e]].slots| > 0
    ensures var key := t.memory[e].slots[0];
            && !key.Null? && (key.Ref? ==> key.at in t.memory)
            && (KeySeen(plan, t, t.origin[e]) <==> key.Small? || t.memory[key.at].seen)
  {
    var a := t.origin[e];
    assert Faithful(plan, t, t.memory[e], plan.start[a]);
    var before, now := plan.start[a].At(1), t.memory[e].At(1);
    assert Points(plan.start, before);
    if now != before {
      assert Resolved(plan, t, before, now);
      assert now.at in t.origin && t.origin[now.at] == before.at;
      assert Faithful(plan, t, t.memory[now.at], plan.start[before.at]);
    }
  }

  ghost function SeenSet(plan: Plan, t: Trace): set<Address>
    requires plan.Valid()
  {
    set a | a in plan.start && Seen(plan, t, a)
  }

  /** The ephemerons not followed yet: what the ephemeron loops use up. */
  ghost function Unfollowed(start: Memory, followed: set<Address>): set<Address> {
    set a | a in start && start[a].special && a !in followed
  }

  lemma UnfollowedShrinks(start: Memory, followed: set<Address>, a: Address)
    requires a in start && start[a].special && a !in followed
    ensures Unfollowed(start, followed + {a}) < Unfollowed(start, followed)
  {
    assert a in Unfollowed(start, followed) && a !in Unfollowed(start, followed + {a});
    forall b | b in Unfollowed(start, followed + {a})
      ensures b in Unfollowed(start, followed)
    {}
  }

  /** An ephemeron that is rescued or has its key marked may be followed without leaving a
      live-closed bound. */
  lemma LiveBound(plan: Plan, t: Trace, followed: set<Address>, bound: set<Address>, queue: multiset<Address>,
                  work: seq<Pending>, roots: seq<Value>, rescued: set<Address>, a: Address)
    requires Invariant(plan, t, followed, bound, queue, work) && LiveClosed(plan.start, roots, rescued, bound)
    requires a in plan.start && plan.start[a].special && (KeySeen(plan, t, a) || a in rescued)
    ensures Bound(plan, followed + {a}, bound)
  {
    forall b, i: nat | b in bound && b in plan.start && i <= Required(plan.start[b], b in followed + {a})
                       && plan.start[b].At(i).Ref?
      ensures plan.start[b].At(i).at in bound
    {
      if b == a {
        assert KeyIn(plan.start[a], bound) || a in rescued;
        assert i <= LivePositions(plan.start[a], a in rescued, bound);
      } else {
        assert i <= Required(plan.start[b], b in followed);
      }
    }
  }

  /** When nothing is left to scan and no waiting ephemeron has a marked key, the marked
      objects are exactly those alive with the ephemerons rescued so far. */
  lemma LiveFixpoint(plan: Plan, t: Trace, followed: set<Address>, queue: multiset<Address>,
                     roots: seq<Value>, rescued: set<Address>, now: seq<Value>)
    requires Invariant(plan, t, followed, LiveSet(plan.start, roots, rescued), queue, [])
    requires RootsResolved(plan, t, roots, now, |roots|) && rescued <= followed
    requires forall e :: e in queue ==> !KeySeen(plan, t, t.origin[e])
    ensures SeenSet(plan, t) == LiveSet(plan.start, roots, rescued)
  {
    var seen := SeenSet(plan, t);
    forall a, i: nat | a in seen && i <= LivePositions(plan.start[a], a in rescued, seen) && plan.start[a].At(i).Ref?
      ensures plan.start[a].At(i).at in seen
    {
      var c := NewAddress(plan, t, a);
      assert t.origin[c] == a;
      if plan.start[a].special && a !in followed {
        assert queue[c] == 1;
        assert !KeySeen(plan, t, a);
        assert Points(plan.start, plan.start[a].At(1));
        assert !KeyIn(plan.start[a], seen);
      }
      assert i <= Required(plan.start[a], a in followed);
      assert !InWork([], c, i);
      assert Resolved(plan, t, plan.start[a].At(i), t.memory[c].At(i));
    }
    forall a | Ref(a) in roots
      ensures a in seen
    {
      var k :| 0 <= k < |roots| && roots[k] == Ref(a);
      assert Resolved(plan, t, roots[k], now[k]);
    }
    assert LiveClosed(plan.start, roots, rescued, seen);
    forall a | a in LiveSet(plan.start, roots, rescued)
      ensures a in seen
    {}
    forall a | a in seen
      ensures a in LiveSet(plan.start, roots, rescued)
    {}
  }

  /** Once nothing is left to scan, the slots of a followed ephemeron are all marked. */
  lemma FollowedSlots(plan: Plan, t: Trace, followed: set<Address>, bound: set<Address>, queue: multiset<Address>,
                      a: Address, i: nat)
    requires Invariant(plan, t, followed, bound, queue, []) && a in followed
    requires i <= plan.start[a].PointersSize() && plan.start[a].At(i).Ref?
    ensures Seen(plan, t, plan.start[a].At(i).at)
  {
    var c := NewAddress(plan, t, a);
    assert t.origin[c] == a;
    assert !InWork([], c, i);
    assert Resolved(plan, t, plan.start[a].At(i), t.memory[c].At(i));
  }

  /** Between traces the bound may become any larger set that is closed as rescues require. */
  lemma WidenBound(plan: Plan, t: Trace, followed: set<Address>, bound: set<Address>, wider: set<Address>,
                   queue: multiset<Address>, roots: seq<Value>, rescued: set<Address>)
    requires Invariant(plan, t, followed, bound, queue, []) && bound <= wider
    requires LiveClosed(plan.start, roots, rescued, wider)
    ensures Invariant(plan, t, followed, wider, queue, [])
  {
    forall a, i: nat | a in wider && a in plan.start && i <= Required(plan.start[a], a in followed)
                       && plan.start[a].At(i).Ref?
      ensures plan.start[a].At(i).at in wider
    {
      if a in followed {
        FollowedSlots(plan, t, followed, bound, queue, a, i);
      } else {
        assert i <= LivePositions(plan.start[a], a in rescued, wider);
      }
    }
  }

  /** What was marked at the moment each ephemeron was followed. */
  type History = map<Address, set<Address>>

  /** The ephemerons followed since `was`, when exactly `seen` was marked, were followed with
      something between that and what is marked now. */
  ghost predicate FollowedSince(plan: Plan, t: Trace, was: History, seen: set<Address>, now: History)
    requires plan.Valid()
  {
    && seen <= SeenSet(plan, t)
    && (forall a :: a in was ==> a in now && now[a] == was[a])
    && (forall a :: a in now && a !in was ==>
          a in plan.start && plan.start[a].special && |plan.start[a].slots| > 0 && seen <= now[a] <= SeenSet(plan, t))
  }

  /** And each of them had its key marked then. */
  ghost predicate LiveSince(plan: Plan, t: Trace, was: History, seen: set<Address>, now: History)
    requires plan.Valid()
  {
    FollowedSince(plan, t, was, seen, now) && forall a :: a in now && a !in was ==> KeyIn(plan.start[a], now[a])
  }

  lemma SeenSetGrows(plan: Plan, t: Trace, t': Trace)
    requires plan.Valid() && Grows(t, t')
    ensures SeenSet(plan, t) <= SeenSet(plan, t')
  {
    forall a | a in SeenSet(plan, t)
      ensures a in SeenSet(plan, t')
    {}
  }

  /** One more ephemeron is followed. */
  lemma FollowedOneMore(plan: Plan, t: Trace, t': Trace, was: History, seen: set<Address>, now: History, a: Address)
    requires plan.Valid() && Grows(t, t') && FollowedSince(plan, t, was, seen, now)
    requires a in plan.start && plan.start[a].special && a !in now
    ensures FollowedSince(plan, t', was, seen, now[a := SeenSet(plan, t)])
    ensures LiveSince(plan, t, was, seen, now) && KeySeen(plan, t, a) ==>
      LiveSince(plan, t', was, seen, now[a := SeenSet(plan, t)])
  {
    SeenSetGrows(plan, t, t');
    hide Grows, SeenSet;
  }

  lemma LiveIsFollowed(plan: Plan, t: Trace, was: History, seen: set<Address>, now: History)
    requires plan.Valid() && LiveSince(plan, t, was, seen, now)
    ensures FollowedSince(plan, t, was, seen, now)
  {}

  lemma SameHistory(plan: Plan, t: Trace, was: History, seen: set<Address>, now: History)
    requires plan.Valid() && FollowedSince(plan, t, was, seen, now) && now.Keys == was.Keys
    ensures now == was
  {
    forall a | a in now.Keys
      ensures a in was.Keys && now[a] == was[a]
    {}
  }

  /** By the beginning of a round the ephemeron was marked, with its key marked or rescued
      before. */
  ghost predicate DueBy(plan: Plan, rounds: seq<Round>, k: nat, a: Address)
    requires k < |rounds| && a in plan.start
  {
    && a in rounds[k].seen && |plan.start[a].slots| > 0
    && (KeyIn(plan.start[a], rounds[k].seen) || a in RescuedBy(rounds[..k]))
  }

  /** Each ephemeron is followed in the first phase that has it due: by the beginning of a round
      if it was due by then, with no more marked than the round found, and otherwise after it,
      with all marked that the round found. */
  ghost predicate InPhases(plan: Plan, t: Trace, history: History, rounds: seq<Round>)
    requires plan.Valid()
  {
    && (forall k :: 0 <= k < |rounds| ==> rounds[k].seen <= SeenSet(plan, t))
    && (forall k, a {:trigger DueBy(plan, rounds, k, a)} ::
          0 <= k < |rounds| && a in plan.start && plan.start[a].special ==>
            if DueBy(plan, rounds, k, a) then a in history && history[a] <= rounds[k].seen
            else a in history ==> rounds[k].seen <= history[a])
  }

  /** Every ephemeron followed had its key marked at that moment, or was rescued in a round
      whose marks it found; and it was followed in the first phase that had it due. */
  ghost predicate Accounted(plan: Plan, t: Trace, history: History, rounds: seq<Round>)
    requires plan.Valid()
  {
    && (forall a :: a in history ==>
          && a in plan.start && plan.start[a].special && |plan.start[a].slots| > 0 && history[a] <= SeenSet(plan, t)
          && (a in RescuedBy(rounds) || KeyIn(plan.start[a], history[a])))
    && (forall k :: 0 <= k < |rounds| ==>
          forall a :: a in rounds[k].batch ==> a in history && rounds[k].seen <= history[a])
    && RescuedBy(rounds) <= history.Keys
    && InPhases(plan, t, history, rounds)
  }

  /** Ephemerons followed later leave those that were due before a round as they are. */
  lemma PhasesKept(plan: Plan, t: Trace, t': Trace, history: History, history': History, rounds: seq<Round>)
    requires plan.Valid() && Grows(t, t') && InPhases(plan, t, history, rounds)
    requires FollowedSince(plan, t', history, SeenSet(plan, t), history')
    ensures InPhases(plan, t', history', rounds)
  {
    SeenSetGrows(plan, t, t');
    hide Grows, SeenSet, DueBy;
    forall k, a | 0 <= k < |rounds| && a in plan.start && plan.start[a].special
      ensures if DueBy(plan, rounds, k, a) then a in history' && history'[a] <= rounds[k].seen
              else a in history' ==> rounds[k].seen <= history'[a]
    {
      if a in history' && a !in history {
        assert rounds[k].seen <= SeenSet(plan, t) <= history'[a];
      }
    }
  }

  /** When no waiting ephemeron has a marked key, just the followed ones are due by the round
      that begins. */
  lemma RoundBegins(plan: Plan, t: Trace, followed: set<Address>, bound: set<Address>, queue: multiset<Address>,
                    rounds: seq<Round>, history: History, r: Round)
    requires Invariant(plan, t, followed, bound, queue, [])
    requires Accounted(plan, t, history, rounds) && history.Keys == followed
    requires forall e :: e in queue ==> e in t.origin && t.origin[e] in plan.start && plan.start[t.origin[e]].special
    requires forall e :: e in queue ==> !KeySeen(plan, t, t.origin[e])
    requires r.seen == SeenSet(plan, t)
    ensures InPhases(plan, t, history, rounds + [r])
  {
    var all := rounds + [r];
    WaitingAreMarked(plan, t, followed, bound, queue, []);
    assert all[..|rounds|] == rounds;
    forall k, a | 0 <= k < |all| && a in plan.start && plan.start[a].special
      ensures if DueBy(plan, all, k, a) then a in history && history[a] <= all[k].seen
              else a in history ==> all[k].seen <= history[a]
    {
      if k < |rounds| {
        assert all[..k] == rounds[..k];
        assert DueBy(plan, all, k, a) == DueBy(plan, rounds, k, a);
      } else if a in history {
        FollowedIsDue(plan, t, history, rounds, r, a);
      } else if DueBy(plan, all, k, a) {
        WaitingIsNotDue(plan, t, followed, bound, queue, rounds, r, a);
      }
    }
  }

  lemma FollowedIsDue(plan: Plan, t: Trace, history: History, rounds: seq<Round>, r: Round, a: Address)
    requires plan.Valid() && Accounted(plan, t, history, rounds) && a in history && a in SeenSet(plan, t)
    requires r.seen == SeenSet(plan, t)
    ensures DueBy(plan, rounds + [r], |rounds|, a) && history[a] <= r.seen
  {
    hide SeenSet, InPhases;
    assert (rounds + [r])[..|rounds|] == rounds;
  }

  lemma WaitingIsNotDue(plan: Plan, t: Trace, followed: set<Address>, bound: set<Address>, queue: multiset<Address>,
                        rounds: seq<Round>, r: Round, a: Address)
    requires Invariant(plan, t, followed, bound, queue, []) && RescuedBy(rounds) <= followed
    requires a in plan.start && plan.start[a].special && a !in followed
    requires forall e :: e in queue ==> e in t.origin && t.origin[e] in plan.start && plan.start[t.origin[e]].special
    requires forall e :: e in queue ==> !KeySeen(plan, t, t.origin[e])
    requires r.seen == SeenSet(plan, t)
    ensures !DueBy(plan, rounds + [r], |rounds|, a)
  {
    assert (rounds + [r])[..|rounds|] == rounds;
    if a in r.seen {
      var c := NewAddress(plan, t, a);
      assert t.origin[c] == a && queue[c] == 1;
      assert !KeySeen(plan, t, a);
    }
  }

  /** The old objects that the listed marked objects stand for. */
  ghost function Originals(origin: map<Address, Address>, es: seq<Address>): set<Address>
    requires forall e :: e in es ==> e in origin
  {
    set e | e in es :: origin[e]
  }

  lemma NoOriginals(origin: map<Address, Address>)
    ensures Originals(origin, []) == {}
  {}

  lemma InOriginals(origin: map<Address, Address>, es: seq<Address>, e: Address)
    requires (forall x :: x in es ==> x in origin) && e in es
    ensures origin[e] in Originals(origin, es)
  {}

  lemma OriginalsPush(origin: map<Address, Address>, es: seq<Address>, e: Address)
    requires (forall x :: x in es ==> x in origin) && e in origin
    ensures Originals(origin, es + [e]) == Originals(origin, es) + {origin[e]}
  {
    var all := Originals(origin, es + [e]);
    forall a | a in all
      ensures a in Originals(origin, es) + {origin[e]}
    {
      var x :| x in es + [e] && origin[x] == a;
    }
    forall a | a in Originals(origin, es) + {origin[e]}
      ensures a in all
    {
      if a != origin[e] {
        var x :| x in es && origin[x] == a;
        assert x in es + [e];
      } else {
        assert e in es + [e];
      }
    }
  }

  /** `rescued` lists, once each and where they live now, exactly the ephemerons of the rounds. */
  ghost predicate RescuedOnce(t: Trace, rounds: seq<Round>, rescued: multiset<Address>) {
    forall e :: rescued[e] == if e in t.origin && t.origin[e] in RescuedBy(rounds) then 1 else 0
  }

  lemma RescuedByPush(rounds: seq<Round>, r: Round)
    ensures RescuedBy(rounds + [r]) == RescuedBy(rounds) + r.batch
  {
    assert (rounds + [r])[..|rounds|] == rounds;
  }

  lemma HistoryKeys(plan: Plan, t: Trace, history: History, rounds: seq<Round>)
    requires plan.Valid() && Accounted(plan, t, history, rounds)
    ensures RescuedBy(rounds) <= history.Keys
  {}

  lemma KeysOfFollowed(plan: Plan, t: Trace, history: History, rounds: seq<Round>)
    requires plan.Valid() && Accounted(plan, t, history, rounds)
    ensures forall a :: a in history && a !in RescuedBy(rounds) ==> KeyIn(plan.start[a], SeenSet(plan, t))
  {
    forall a | a in history && a !in RescuedBy(rounds)
      ensures KeyIn(plan.start[a], SeenSet(plan, t))
    {
      assert KeyIn(plan.start[a], history[a]) && history[a] <= SeenSet(plan, t);
    }
  }

  /** One rescue round: when no waiting ephemeron has a marked key, the waiting ones are those
      to rescue next. */
  lemma RoundKeepsRounds(plan: Plan, t: Trace, followed: set<Address>, bound: set<Address>, queue: multiset<Address>,
                         roots: seq<Value>, rounds: seq<Round>, history: History, batch: set<Address>)
    requires Invariant(plan, t, followed, bound, queue, []) && RoundsOk(plan.start, roots, rounds)
    requires Accounted(plan, t, history, rounds) && history.Keys == followed
    requires forall a :: a in batch <==> exists e :: e in queue && t.origin[e] == a
    requires forall e :: e in queue ==> !KeySeen(plan, t, t.origin[e])
    requires SeenSet(plan, t) == LiveSet(plan.start, roots, RescuedBy(rounds))
    ensures batch == Doomed(plan.start, roots, RescuedBy(rounds))
    ensures batch != {} ==> RoundsOk(plan.start, roots, rounds + [Round(SeenSet(plan, t), batch)])
  {
    WaitingAreMarked(plan, t, followed, bound, queue, []);
    KeysOfFollowed(plan, t, history, rounds);
    var seen, doomed := SeenSet(plan, t), Doomed(plan.start, roots, RescuedBy(rounds));
    forall a | a in batch
      ensures a in doomed
    {
      var e :| e in queue && t.origin[e] == a;
      assert !KeySeen(plan, t, a);
      assert Points(plan.start, plan.start[a].At(1));
    }
    forall a | a in doomed
      ensures a in batch
    {
      var c := NewAddress(plan, t, a);
      assert t.origin[c] == a;
      assert queue[c] == 1;
    }
    var r := Round(seen, batch);
    assert (rounds + [r])[..|rounds|] == rounds;
  }

  lemma RoundKeepsRescuedOnce(plan: Plan, t: Trace, t': Trace, followed: set<Address>, queue: multiset<Address>,
                              rounds: seq<Round>, rescued: multiset<Address>, r: Round)
    requires plan.Valid() && Located(plan, t) && Located(plan, t') && Grows(t, t') && RescuedOnce(t, rounds, rescued)
    requires forall a :: a in RescuedBy(rounds) ==> a in followed && Seen(plan, t, a)
    requires forall e :: e in queue ==> queue[e] == 1 && e in t.origin && t.origin[e] !in followed
    requires forall a :: a in r.batch <==> exists e :: e in queue && t.origin[e] == a
    ensures RescuedOnce(t', rounds + [r], rescued + queue)
  {
    RescuedByPush(rounds, r);
    forall e
      ensures (rescued + queue)[e] == if e in t'.origin && t'.origin[e] in RescuedBy(rounds + [r]) then 1 else 0
    {
      if e in t'.origin {
        var a := t'.origin[e];
        if a in RescuedBy(rounds) {
          assert t.origin[NewAddress(plan, t, a)] == a && t'.origin[NewAddress(plan, t, a)] == a;
          assert e == NewAddress(plan, t, a);
        } else if a in r.batch {
          var d :| d in queue && t.origin[d] == a;
          assert t'.origin[d] == a;
          assert d == e;
        }
      }
    }
  }

  /** After a rescue, the followed ephemerons had a marked key when they were followed, or
      belong to a round. */
  lemma RoundKeepsAccounted(plan: Plan, t: Trace, t': Trace, history: History, history': History,
                            rounds: seq<Round>, r: Round)
    requires plan.Valid() && Grows(t, t') && Accounted(plan, t, history, rounds)
    requires InPhases(plan, t, history, rounds + [r]) && r.seen == SeenSet(plan, t)
    requires FollowedSince(plan, t', history, r.seen, history')
    requires history'.Keys == history.Keys + r.batch && r.batch !! history.Keys
    ensures Accounted(plan, t', history', rounds + [r])
  {
    SeenSetGrows(plan, t, t');
    RescuedByPush(rounds, r);
    PhasesKept(plan, t, t', history, history', rounds + [r]);
    hide InPhases, Grows, SeenSet, KeyIn, RescuedBy;
    forall a | a in history'
      ensures history'[a] <= SeenSet(plan, t') && (a in RescuedBy(rounds + [r]) || KeyIn(plan.start[a], history'[a]))
    {
      if a in history {
        assert history'[a] == history[a];
      }
    }
    forall k, a | 0 <= k < |rounds + [r]| && a in (rounds + [r])[k].batch
      ensures a in history' && (rounds + [r])[k].seen <= history'[a]
    {
      if k < |rounds| {
        assert a in history;
      }
    }
  }

  lemma RescuedOnceKept(plan: Plan, t: Trace, t': Trace, rounds: seq<Round>, rescued: multiset<Address>)
    requires plan.Valid() && Located(plan, t) && Grows(t, t') && Located(plan, t') && RescuedOnce(t, rounds, rescued)
    requires forall a :: a in RescuedBy(rounds) ==> Seen(plan, t, a)
    ensures RescuedOnce(t', rounds, rescued)
  {
    forall e | e in t'.origin && t'.origin[e] in RescuedBy(rounds)
      ensures e in t.origin && t.origin[e] == t'.origin[e]
    {
      var a := t'.origin[e];
      assert Seen(plan, t, a);
      assert t.origin[NewAddress(plan, t, a)] == a && t'.origin[NewAddress(plan, t, a)] == a;
    }
  }

  lemma LiveKeepsAccounted(plan: Plan, t: Trace, t': Trace, history: History, history': History, followed: set<Address>,
                           bound: set<Address>, queue: multiset<Address>, rounds: seq<Round>,
                             rescued: multiset<Address>)
    requires Invariant(plan, t, followed, bound, queue, []) && Grows(t, t') && Located(plan, t')
    requires Accounted(plan, t, history, rounds) && RescuedOnce(t, rounds, rescued) && history.Keys == followed
    requires LiveSince(plan, t', history, SeenSet(plan, t), history')
    ensures Accounted(plan, t', history', rounds) && RescuedOnce(t', rounds, rescued)
  {
    SeenSetGrows(plan, t, t');
    PhasesKept(plan, t, t', history, history', rounds);
    hide InPhases, Invariant;
    forall a | a in RescuedBy(rounds)
      ensures a in history'
    {
      assert a in history;
    }
    RescuedOnceKept(plan, t, t', rounds, rescued);
  }

  /** Before anything is marked the invariant holds. */
  lemma NothingMarked(plan: Plan, bound: set<Address>)
    requires plan.Valid() && Bound(plan, {}, bound)
    ensures Invariant(plan, Trace(plan.start, map[], map[]), {}, bound, multiset{}, [])
  {}

  lemma LiveSetBounds(plan: Plan, roots: seq<Value>)
    requires plan.Valid() && ValidRoots(plan.start, roots)
    ensures Bound(plan, {}, LiveSet(plan.start, roots, {}))
    ensures LiveClosed(plan.start, roots, {}, LiveSet(plan.start, roots, {}))
  {
    LiveSetIsClosed(plan.start, roots, {});
  }

  lemma RootsAtStart(plan: Plan, t: Trace, bound: set<Address>, roots: seq<Value>, refs: seq<Value>)
    requires plan.Valid() && ValidRoots(plan.start, roots + refs)
    requires forall a :: Ref(a) in roots + refs ==> a in bound
    ensures RootsKept(plan, t, bound, roots, roots) && RootsKept(plan, t, bound, refs, refs)
  {
    forall k | 0 <= k < |roots|
      ensures RootKept(plan, t, bound, roots[k], roots[k])
    {
      assert (roots + refs)[k] == roots[k] && roots[k] in roots + refs;
    }
    forall k | 0 <= k < |refs|
      ensures RootKept(plan, t, bound, refs[k], refs[k])
    {
      assert (roots + refs)[|roots| + k] == refs[k] && refs[k] in roots + refs;
    }
  }

  /** How a collection starts. */
  lemma InitialState(plan: Plan, roots: seq<Value>, refs: seq<Value>)
    requires plan.Valid() && ValidRoots(plan.start, roots + refs)
    ensures var t, bound := Trace(plan.start, map[], map[]), LiveSet(plan.start, roots + refs, {});
            && Invariant(plan, t, {}, bound, multiset{}, [])
            && LiveClosed(plan.start, roots + refs, {}, bound)
            && RootsKept(plan, t, bound, roots, roots) && RootsKept(plan, t, bound, refs, refs)
            && Accounted(plan, t, map[], []) && RescuedOnce(t, [], multiset{})
  {
    var t, bound := Trace(plan.start, map[], map[]), LiveSet(plan.start, roots + refs, {});
    LiveSetBounds(plan, roots + refs);
    NothingMarked(plan, bound);
    RootsAtStart(plan, t, bound, roots, refs);
  }

  lemma RootsTogether(plan: Plan, t: Trace, before1: seq<Value>, now1: seq<Value>, before2: seq<Value>,
                      now2: seq<Value>)
    requires plan.Valid() && RootsResolved(plan, t, before1, now1, |now1|)
    requires RootsResolved(plan, t, before2, now2, |now2|)
    ensures RootsResolved(plan, t, before1 + before2, now1 + now2, |before1 + before2|)
  {}

  // ---- what a finished collection has done

  /** `now` is `before`, marked, with every pointer brought up to date. */
  ghost predicate IsImage(plan: Plan, t: Trace, now: Object, before: Object)
    requires plan.Valid()
  {
    && now.seen && now.isBytes == before.isBytes && now.special == before.special
    && now.remembered == before.remembered && |now.slots| == |before.slots|
    && (before.isBytes ==> now.slots == before.slots)
    && forall i: nat :: i <= before.PointersSize() ==> Resolved(plan, t, before.At(i), now.At(i))
  }

  /** Nothing marked lives between the beginning of an emptied space and the end of its forwarder
      area, and whatever was outside all of these is where it was. */
  ghost predicate LeftEmptied(zone: Zone, evacuated: seq<bool>, t: Trace, marked: set<Address>) {
    && (forall c, i :: c in t.origin && 0 <= i < |evacuated| && evacuated[i] ==>
          c < zone.SpaceBase(i + 1) || zone.SpaceBase(i + 1) + 2 * SPACE_SIZE <= c)
    && (forall a :: a in marked
          && (forall i :: 0 <= i < |evacuated| && evacuated[i] ==>
                a < zone.SpaceBase(i + 1) || zone.SpaceBase(i + 1) + 2 * SPACE_SIZE <= a)
          ==> a in t.origin && t.origin[a] == a)
    && (forall a :: a in marked
          && (exists i :: 0 <= i < |evacuated| && evacuated[i]
                          && zone.SpaceBase(i + 1) <= a < zone.SpaceBase(i + 1) + 2 * SPACE_SIZE)
          ==> a !in t.origin && exists c :: c in t.origin && t.origin[c] == a)
  }

  /** A pointer up to date leads to what stands for its old target, and anything else is as it was. */
  lemma ResolvedExactly(plan: Plan, t: Trace, before: Value, now: Value)
    requires plan.Valid() && Located(plan, t)
    ensures Resolved(plan, t, before, now)
      <==> if before.Ref? then now.Ref? && now.at in t.origin && t.origin[now.at] == before.at else now == before
  {
    hide OldUntouched, InEvacuatedSpace;
    if now.Ref? && now.at in t.origin {
      assert Seen(plan, t, t.origin[now.at]) && NewAddress(plan, t, t.origin[now.at]) == now.at;
    }
    if Resolved(plan, t, before, now) && before.Ref? {
      assert Seen(plan, t, before.at);
    }
  }

  lemma MarkedIsReachable(plan: Plan, t: Trace, roots: seq<Value>)
    requires plan.Valid() && SameGraph(plan, t, roots)
    ensures SeenSet(plan, t) == ReachableSet(plan.start, roots)
  {}

  lemma MarkedLeave(plan: Plan, t: Trace)
    requires plan.Valid() && Located(plan, t)
    ensures LeftEmptied(plan.zone, plan.evacuated, t, SeenSet(plan, t))
  {
    hide InEvacuatedSpace, OldUntouched;
    forall c, i | c in t.origin && 0 <= i < |plan.evacuated| && plan.evacuated[i]
      ensures c < plan.zone.SpaceBase(i + 1) || plan.zone.SpaceBase(i + 1) + 2 * SPACE_SIZE <= c
    {
      EmptiedExactly(plan.zone, plan.evacuated, c);
      assert !plan.HasToEvacuate(c);
    }
    forall a | a in SeenSet(plan, t)
      ensures !InEvacuatedSpace(plan.zone, plan.evacuated, a) ==> a in t.origin && t.origin[a] == a
      ensures InEvacuatedSpace(plan.zone, plan.evacuated, a) ==>
        a !in t.origin && exists c :: c in t.origin && t.origin[c] == a
    {
      assert Seen(plan, t, a);
      assert t.origin[NewAddress(plan, t, a)] == a;
    }
    forall a | a in SeenSet(plan, t)
      ensures InEvacuatedSpace(plan.zone, plan.evacuated, a)
        <==> exists i :: 0 <= i < |plan.evacuated| && plan.evacuated[i]
                         && plan.zone.SpaceBase(i + 1) <= a < plan.zone.SpaceBase(i + 1) + 2 * SPACE_SIZE
    {
      EmptiedExactly(plan.zone, plan.evacuated, a);
    }
  }

  /** The old reachable graph and the marked one are the same graph up to the addresses of the
      moved objects, and nothing else was touched. */
  ghost predicate SameGraph(plan: Plan, t: Trace, roots: seq<Value>)
    requires plan.Valid()
  {
    && (forall a :: Seen(plan, t, a) <==> a in ReachableSet(plan.start, roots))
    && (forall a :: a in ReachableSet(plan.start, roots) && plan.HasToEvacuate(a) ==>
          a in t.forwarders && t.forwarders[a] !in plan.start && !plan.HasToEvacuate(t.forwarders[a]))
    && (forall a :: a in ReachableSet(plan.start, roots) ==>
          NewAddress(plan, t, a) in t.memory && IsImage(plan, t, t.memory[NewAddress(plan, t, a)], plan.start[a]))
    && (forall a, b :: a in ReachableSet(plan.start, roots) && b in ReachableSet(plan.start, roots) ==>
          NewAddress(plan, t, a) == NewAddress(plan, t, b) ==> a == b)
    && (forall a :: a in plan.start && a !in ReachableSet(plan.start, roots) ==>
          a in t.memory && t.memory[a] == plan.start[a])
    && (forall a :: a in ReachableSet(plan.start, roots) && plan.HasToEvacuate(a) ==>
          a in t.memory && t.memory[a] == plan.start[a].(seen := true))
    && (forall c :: c in t.memory ==> c in plan.start || exists a :: a in t.forwarders && t.forwarders[a] == c)
  }

  /** An image has the old flags, and every pointer of the old object to where its target lives now;
      the words of a bytes object are as they were. */
  lemma ImageExactly(plan: Plan, t: Trace, now: Object, before: Object)
    requires plan.Valid() && IsImage(plan, t, now, before)
    ensures now.seen && now.isBytes == before.isBytes && now.special == before.special
    ensures |now.slots| == |before.slots| && (before.isBytes ==> now.slots == before.slots)
    ensures Resolved(plan, t, before.behavior, now.behavior)
    ensures forall k :: 0 <= k < |before.slots| && !before.isBytes ==>
      Resolved(plan, t, before.slots[k], now.slots[k])
  {
    assert now.At(0) == now.behavior && before.At(0) == before.behavior;
    forall k | 0 <= k < |before.slots| && !before.isBytes
      ensures Resolved(plan, t, before.slots[k], now.slots[k])
    {
      assert now.At(k + 1) == now.slots[k] && before.At(k + 1) == before.slots[k];
    }
  }

  /** A finished trace has marked exactly what is reachable and preserved the graph. */
  lemma TracePreservesGraph(plan: Plan, t: Trace, followed: set<Address>, roots: seq<Value>, now: seq<Value>)
    requires Invariant(plan, t, followed, ReachableSet(plan.start, roots), multiset{}, [])
    requires RootsResolved(plan, t, roots, now, |roots|)
    ensures SameGraph(plan, t, roots)
  {
    assert forall c, i: nat :: !InWork([], c, i);
    AllReachableSeen(plan, t, followed, roots, now);
    forall a | a in ReachableSet(plan.start, roots)
      ensures NewAddress(plan, t, a) in t.memory && IsImage(plan, t, t.memory[NewAddress(plan, t, a)], plan.start[a])
    {
      SeenIsImage(plan, t, followed, ReachableSet(plan.start, roots), a);
    }
    forall c | c in t.memory && c !in plan.start
      ensures exists a :: a in t.forwarders && t.forwarders[a] == c
    {
      assert NewAddress(plan, t, t.origin[c]) == c;
      assert t.origin[c] in t.forwarders;
    }
  }

  lemma SeenIsImage(plan: Plan, t: Trace, followed: set<Address>, bound: set<Address>, a: Address)
    requires Invariant(plan, t, followed, bound, multiset{}, []) && Seen(plan, t, a)
    ensures NewAddress(plan, t, a) in t.memory && IsImage(plan, t, t.memory[NewAddress(plan, t, a)], plan.start[a])
  {
    var c := NewAddress(plan, t, a);
    assert t.origin[c] == a;
    assert Faithful(plan, t, t.memory[c], plan.start[a]);
    var none: multiset<Address> := multiset{};
    assert none[c] == 0;
    forall i: nat | i <= plan.start[a].PointersSize()
      ensures Resolved(plan, t, plan.start[a].At(i), t.memory[c].At(i))
    {
      assert !InWork([], c, i);
      assert i <= Required(plan.start[a], a in followed);
    }
    if plan.start[a].isBytes {
      forall i: nat | i < |plan.start[a].slots|
        ensures t.memory[c].slots[i] == plan.start[a].slots[i]
      {
        assert t.memory[c].At(i + 1) == plan.start[a].At(i + 1);
      }
    }
  }

  lemma AllReachableSeen(plan: Plan, t: Trace, followed: set<Address>, roots: seq<Value>, now: seq<Value>)
    requires Invariant(plan, t, followed, ReachableSet(plan.start, roots), multiset{}, [])
    requires RootsResolved(plan, t, roots, now, |roots|)
    ensures SeenSet(plan, t) == ReachableSet(plan.start, roots)
  {
    var seen := SeenSet(plan, t);
    forall a, b | a in seen && Edge(plan.start, a, b)
      ensures b in seen
    {
      var i: nat :| i <= plan.start[a].PointersSize() && plan.start[a].At(i) == Ref(b);
      SeenIsImage(plan, t, followed, ReachableSet(plan.start, roots), a);
      assert Resolved(plan, t, plan.start[a].At(i), t.memory[NewAddress(plan, t, a)].At(i));
    }
    forall b | Ref(b) in roots
      ensures b in seen
    {
      var k :| 0 <= k < |roots| && roots[k] == Ref(b);
      assert Resolved(plan, t, roots[k], now[k]);
    }
    forall a | a in ReachableSet(plan.start, roots)
      ensures a in seen
    {
      var path :| IsPath(plan.start, roots, path) && path[|path| - 1] == a;
      ClosedSetHoldsReachable(plan.start, roots, seen, path);
    }
    forall a | a in seen
      ensures a in ReachableSet(plan.start, roots)
    {}
  }

  lemma OriginInMemory(plan: Plan, t: Trace, c: Address)
    requires plan.Valid() && Located(plan, t)
    ensures c in t.origin ==> c in t.memory
  {}

  lemma KeysReachable(m: Memory, roots: seq<Value>)
    requires WellFormed(m) && ValidRoots(m, roots)
    ensures forall a :: a in ReachableSet(m, roots) && m[a].special && |m[a].slots| > 0 ==>
      KeyIn(m[a], ReachableSet(m, roots))
  {
    ReachableSetIsClosed(m, roots);
    forall a | a in ReachableSet(m, roots) && m[a].special && |m[a].slots| > 0
      ensures KeyIn(m[a], ReachableSet(m, roots))
    {
      assert 1 <= m[a].PointersSize() && m[a].At(1) == m[a].slots[0];
    }
  }

  /** When nothing waits any more, the rounds are all there are, what they keep alive is all
      that is reachable, and every reachable ephemeron has been followed. */
  lemma AllEphemeronsAccounted(plan: Plan, t: Trace, followed: set<Address>, roots: seq<Value>, now: seq<Value>,
                               rounds: seq<Round>)
    requires Invariant(plan, t, followed, LiveSet(plan.start, roots, RescuedBy(rounds)), multiset{}, [])
    requires RootsResolved(plan, t, roots, now, |roots|) && ValidRoots(plan.start, roots)
    requires RoundsOk(plan.start, roots, rounds) && RescuedBy(rounds) <= followed
    ensures AllRounds(plan.start, roots, rounds) && SameGraph(plan, t, roots)
    ensures LiveSet(plan.start, roots, RescuedBy(rounds)) == ReachableSet(plan.start, roots)
    ensures forall a :: a in ReachableSet(plan.start, roots) && plan.start[a].special ==> a in followed
  {
    var live, reach := LiveSet(plan.start, roots, RescuedBy(rounds)), ReachableSet(plan.start, roots);
    LiveIsReachable(plan.start, roots, RescuedBy(rounds));
    LiveFixpoint(plan, t, followed, multiset{}, roots, RescuedBy(rounds), now);
    WidenBound(plan, t, followed, live, reach, multiset{}, roots, RescuedBy(rounds));
    AllReachableSeen(plan, t, followed, roots, now);
    TracePreservesGraph(plan, t, followed, roots, now);
    KeysReachable(plan.start, roots);
    forall a | a in live
      ensures a !in Doomed(plan.start, roots, RescuedBy(rounds))
    {}
    forall a | a in reach && plan.start[a].special
      ensures a in followed
    {
      var none: multiset<Address> := multiset{};
      assert none[NewAddress(plan, t, a)] == 0;
      assert t.origin[NewAddress(plan, t, a)] == a;
    }
  }

  // ---- measures and fresh addresses

  /** Memory is finite, so some address lies outside it and outside the zone. */
  lemma FreshAddressExists(plan: Plan, memory: Memory)
    requires plan.Valid()
    ensures exists c: Address :: c !in memory && !plan.HasToEvacuate(c)
  {
    var top := Above(memory.Keys, plan.zone.limit);
    assert top !in memory && !plan.HasToEvacuate(top);
  }

  lemma Above(s: set<Address>, least: Address) returns (top: Address)
    ensures top >= least && forall x :: x in s ==> x < top
  {
    top := least;
    if x :| x in s {
      top := Above(s - {x}, least);
      if top <= x {
        top := x + 1;
      }
      assert forall y :: y in s ==> y == x || y in s - {x};
    }
  }

  /** How many positions wait in the work stack, counting one for each range. */
  function WorkSize(work: seq<Pending>): nat {
    if work == [] then 0 else WorkSize(work[..|work| - 1]) + 1 + RangeSize(work[|work| - 1])
  }

  function RangeSize(p: Pending): nat {
    if p.from <= p.to then p.to - p.from + 1 else 0
  }

  lemma WorkSizePush(work: seq<Pending>, p: Pending)
    ensures WorkSize(work + [p]) == WorkSize(work) + 1 + RangeSize(p)
  {
    assert (work + [p])[..|work|] == work;
  }

  ghost function UnseenIn(start: Memory, memory: Memory): set<Address> {
    set a | a in start && a in memory && !memory[a].seen
  }

  lemma UnseenShrinks(start: Memory, before: Memory, after: Memory, b: Address)
    requires b in start && b in before && !before[b].seen && b in after && after[b].seen
    requires forall a :: a in before && before[a].seen ==> a in after && after[a].seen
    requires forall a :: a in start ==> a in before
    ensures UnseenIn(start, after) < UnseenIn(start, before)
  {
    assert b in UnseenIn(start, before) && b !in UnseenIn(start, after);
    forall a | a in UnseenIn(start, after)
      ensures a in UnseenIn(start, before)
    {}
  }
}
