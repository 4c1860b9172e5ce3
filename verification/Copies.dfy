/** Where the zone puts the copies that a collection makes: at addresses nothing else has, outside
    the spaces that are being emptied. */
module Copies {
  import opened Regions
  import Zones = AllocationZone
  import Marking

  type State = Zones.State

  /** The address of an object is where its body starts, after its header; it lies in the part of
      a space that is in use. */
  predicate Used(z: State, a: Address) {
    exists i :: 0 <= i < |z.spaces| && z.spaces[i].base < a <= z.spaces[i].next
  }

  /** Only used parts of the zone hold objects. */
  predicate Holds(zone: Zone, z: State, heap: set<Address>) {
    forall a :: a in heap && zone.base < a <= zone.limit ==> Used(z, a)
  }

  /** A new next space has nothing in use. */
  lemma BumpedUses(zone: Zone, z: State, a: Address)
    requires Zones.Invariant(zone, z) && Zones.Bumped(zone, z).Some?
    ensures Used(Zones.Bumped(zone, z).value, a) <==> Used(z, a)
  {
    var z1 := if z.emptySpaces == [] then Zones.WithSpace(zone, z).value else z;
    if z.emptySpaces == [] {
      Zones.WithSpaceKeeps(zone, z);
    }
    var e := z1.emptySpaces[|z1.emptySpaces| - 1];
    assert e in z1.emptySpaces && z1.spaces[e].base == z1.spaces[e].next;
    var r := Zones.Bumped(zone, z).value;
    assert forall i :: 0 <= i < |z.spaces| ==>
      r.spaces[i].base == z.spaces[i].base && r.spaces[i].next == z.spaces[i].next;
    assert forall i :: |z.spaces| <= i < |r.spaces| ==> r.spaces[i].base == r.spaces[i].next;
  }

  /** Spaces do not overlap. */
  lemma Apart(zone: Zone, z: State, i: nat, j: nat, a: Address)
    requires Zones.Placed(zone, z) && i < |z.spaces| && j < |z.spaces|
    requires z.spaces[i].base < a <= z.spaces[i].reservedLimit && z.spaces[j].base < a <= z.spaces[j].next
    ensures i == j
  {
    IndexInvertsPlacement(zone, i + 1, a);
    IndexInvertsPlacement(zone, j + 1, a);
  }

  /** Memory from current space was not in use, and that is all that comes into use. */
  lemma CurrentUses(zone: Zone, z: State, size: nat, copying: bool, a: Address)
    requires Zones.Invariant(zone, z) && Zones.WithRoom(z.spaces[z.current], size, copying).Some?
    ensures var s := z.spaces[z.current];
      var r := Zones.PutInCurrent(z, Zones.WithRoom(s, size, copying).value);
      && (s.next < a <= s.next + size ==> !Used(z, a))
      && (Used(r, a) <==> Used(z, a) || s.next < a <= s.next + size)
  {
    var s := z.spaces[z.current];
    var s' := Zones.WithRoom(s, size, copying).value;
    var r := Zones.PutInCurrent(z, s');
    assert s'.base == s.base && s'.next == s.next + size;
    if s.next < a <= s.next + size {
      assert r.spaces[z.current] == s';
      assert Used(r, a);
      if j :| 0 <= j < |z.spaces| && z.spaces[j].base < a <= z.spaces[j].next {
        Apart(zone, z, z.current, j, a);
      }
    } else {
      assert forall j :: 0 <= j < |z.spaces| ==>
        (r.spaces[j].base < a <= r.spaces[j].next <==> z.spaces[j].base < a <= z.spaces[j].next);
    }
  }

  /** Whatever is put in the zone gets memory that was not in use, and nothing else changes. */
  lemma PutUses(zone: Zone, z: State, size: nat, copying: bool, a: Address)
    requires Zones.Invariant(zone, z)
    ensures var (r, where) := Zones.Put(zone, z, size, copying);
      && (where.InZone? && where.start < a <= where.start + size ==> !Used(z, a))
      && (Used(r, a) <==> Used(z, a) || (where.InZone? && where.start < a <= where.start + size))
  {
    hide Used, Zones.Bumped;
    if Zones.WithRoom(z.spaces[z.current], size, copying).Some? {
      CurrentUses(zone, z, size, copying, a);
    } else if size <= Zones.LARGE_THRESHOLD {
      Zones.BumpedKeeps(zone, z);
      if Zones.Bumped(zone, z).Some? {
        Zones.FitsInNext(zone, z, size, copying);
        BumpedUses(zone, z, a);
        CurrentUses(zone, Zones.Bumped(zone, z).value, size, copying, a);
      }
    }
  }

  /** The address of a copy, anywhere in the memory it gets, is one that no object of the heap has,
      outside the spaces being emptied; and with it the heap is in the used parts again. */
  lemma CopyMayGoThere(zone: Zone, z: State, size: nat, header: nat, heap: set<Address>)
    requires Zones.Invariant(zone, z) && Holds(zone, z, heap) && 0 < header <= size
    ensures var (r, where) := Zones.Put(zone, z, size, true);
      where.InZone? ==>
        var copy := where.start + header;
        && copy !in heap && !Marking.InEvacuatedSpace(zone, z.evacuated, copy)
        && Holds(zone, r, heap + {copy})
  {
    var (r, where) := Zones.Put(zone, z, size, true);
    Zones.PutKeeps(zone, z, size, true);
    hide Zones.Put, Used, Zones.Invariant;
    if where.InZone? {
      var copy := where.start + header;
      RegionInRange(zone, copy);
      assert zone.RegionIndexOf(copy) >= 1;
      RegionInRange(zone, where.start);
      assert zone.RegionIndexOf(where.start) >= 1;
      PutUses(zone, z, size, true, copy);
      forall a | a in heap && zone.base < a <= zone.limit
        ensures Used(r, a)
      {
        PutUses(zone, z, size, true, a);
      }
    }
  }

  /** When a collection ends nothing marked is in a space that is given back because it was
      emptied. */
  lemma NothingMarkedGivenBack(zone: Zone, z: State, plan: Marking.Plan, t: Marking.Trace, e: nat)
    requires Zones.Invariant(zone, z) && plan.Valid() && plan.zone == zone && plan.evacuated == z.evacuated
    requires Marking.Located(plan, t) && e < |z.spaces| && z.evacuated[e]
    ensures var r := Zones.ReleasedEvacuated(z);
      && (e in r.emptySpaces <==> e != |z.spaces| - 1)
      && |r.spaces| == |z.spaces|
      && forall c :: c in t.origin ==> c < r.spaces[e].base || r.spaces[e].reservedLimit < c
  {
    hide Marking.Located, Marking.SeenSet, Zones.Recycled;
    Zones.ReleaseKeeps(zone, z);
    Marking.MarkedLeave(plan, t);
    assert Zones.Placed(zone, Zones.ReleasedEvacuated(z));
  }

  /** Until a collection ends, memory in use stays in use. */
  lemma StaysUsed(zone: Zone, z: State, event: Zones.Event, a: Address)
    requires Zones.Invariant(zone, z) && !event.End? && Used(z, a)
    ensures Used(Zones.After(zone, z, event), a)
  {
    hide Used, Zones.Put;
    match event
    case Allocate(size) => PutUses(zone, z, size, false, a);
    case Copy(size) => PutUses(zone, z, size, true, a);
    case Start => SameUsed(z, Zones.Determined(zone, z), a);
    case Mark(address, bytes) => SameUsed(z, Zones.Counted(zone, z, address, bytes), a);
  }

  lemma SameUsed(z: State, z': State, a: Address)
    requires z'.spaces == z.spaces
    ensures Used(z', a) <==> Used(z, a)
  {}

  function Placed(zone: Zone, z: State, event: Zones.Event): Zones.Placement
    requires zone.Valid() && z.current < |z.spaces| && z.spaces[z.current].Valid()
  {
    match event
    case Allocate(size) => Zones.Put(zone, z, size, false).1
    case Copy(size) => Zones.Put(zone, z, size, true).1
    case _ => Zones.Outside
  }

  function Size(event: Zones.Event): nat {
    match event
    case Allocate(size) => size
    case Copy(size) => size
    case _ => 0
  }

  /** Of a run in which no collection ends: what is in use after a step is in use later. */
  lemma {:induction false} UsedLater(zone: Zone, states: seq<State>, events: seq<Zones.Event>, j: nat, k: nat,
                                     a: Address)
    requires Zones.IsRun(zone, states, events) && j <= k < |states|
    requires (forall i :: j <= i < k ==> !events[i].End?) && Used(states[j], a)
    ensures Used(states[k], a)
  {
    hide Used, Zones.Invariant, Zones.After;
    if j < k {
      UsedLater(zone, states, events, j, k - 1, a);
      Zones.RunsKeepInvariant(zone, states, events, k - 1);
      StaysUsed(zone, states[k - 1], events[k - 1], a);
    }
  }

  /** All that is allocated and copied between two ends of collections is apart: no address is
      handed out twice. */
  lemma PlacedApart(zone: Zone, states: seq<State>, events: seq<Zones.Event>, j: nat, k: nat, a: Address)
    requires Zones.IsRun(zone, states, events) && j < k < |events|
    requires forall i :: j < i < k ==> !events[i].End?
    ensures Zones.Invariant(zone, states[j]) && Zones.Invariant(zone, states[k])
    ensures var (first, second) := (Placed(zone, states[j], events[j]), Placed(zone, states[k], events[k]));
      first.InZone? && second.InZone? ==>
        !(first.start < a <= first.start + Size(events[j]) && second.start < a <= second.start + Size(events[k]))
  {
    hide Used, Zones.Put;
    Zones.RunsKeepInvariant(zone, states, events, j);
    Zones.RunsKeepInvariant(zone, states, events, k);
    var (first, second) := (Placed(zone, states[j], events[j]), Placed(zone, states[k], events[k]));
    if first.InZone? && second.InZone? && first.start < a <= first.start + Size(events[j]) {
      PutUses(zone, states[j], Size(events[j]), events[j].Copy?, a);
      assert Used(states[j + 1], a);
      UsedLater(zone, states, events, j + 1, k, a);
      PutUses(zone, states[k], Size(events[k]), events[k].Copy?, a);
    }
  }
}
