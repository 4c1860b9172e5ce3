/** The old zone: its spaces, which of them are free, and which are chosen for evacuation. */
module AllocationZone {
  import opened Regions

  const PAGE_SIZE: nat := 0x1000

  /** A space with less than this in use may be evacuated: eight tenths of a space. */
  const THRESHOLD: nat := 209715

  datatype Option<+T> = None | Some(value: T)

  /** A space of the zone; it may be used as far as it is committed. */
  datatype Space = Space(
    base: Address, next: Address, softLimit: Address, committedLimit: Address, reservedLimit: Address) {

    predicate Valid() {
      0 <= base <= next <= softLimit == committedLimit <= reservedLimit == base + SPACE_SIZE
    }

    predicate IsFree() {
      committedLimit == base
    }

    function CommittedSize(): int {
      committedLimit - base
    }

    function UsedSize(): int {
      next - base
    }

    /** Up to the end of a page, and not past the space. */
    function CommittedUpTo(address: Address): (s: Option<Space>)
      requires Valid() && committedLimit <= address
      ensures s.None? <==> address > reservedLimit
      ensures s.Some? ==> address <= s.value.committedLimit <= reservedLimit
      ensures s.Some? ==> s.value == this.(committedLimit := s.value.committedLimit)
      ensures s.Some? ==> s.value.committedLimit < address + 4096
      ensures s.Some? ==> s.value.committedLimit % 4096 == 0 || s.value.committedLimit == reservedLimit
    {
      var page := (address + PAGE_SIZE - 1) / PAGE_SIZE * PAGE_SIZE;
      var newLimit := if page < reservedLimit then page else reservedLimit;
      if newLimit < address then None else Some(this.(committedLimit := newLimit))
    }

    /** All of a free space. */
    function Opened(): (s: Space)
      requires Valid() && IsFree()
      ensures s.Valid() && s.base == s.next == base && s.softLimit == s.reservedLimit == reservedLimit
    {
      var s := CommittedUpTo(committedLimit + SPACE_SIZE).value;
      s.(softLimit := s.committedLimit)
    }

    function Released(): (s: Space)
      requires Valid()
      ensures s.Valid() && s.IsFree() && s.base == base
    {
      this.(next := base, softLimit := base, committedLimit := base)
    }

    /** Objects are allocated below the soft limit. */
    function Allocated(size: nat): (s: Option<Space>)
      requires Valid()
      ensures s.Some? ==> s.value.Valid() && s.value == this.(next := next + size)
    {
      if next + size < softLimit then Some(this.(next := next + size)) else None
    }

    /** Copies may take a space to its very end. */
    function AllocatedCommitting(size: nat): (s: Option<Space>)
      requires Valid()
      ensures s.None? <==> next + size > reservedLimit
      ensures s.Some? ==> s.value.Valid() && s.value.base == base && s.value.next == next + size
      ensures s.Some? ==> s.value.committedLimit >= committedLimit
      ensures s.Some? && next + size <= softLimit ==> s.value.committedLimit == committedLimit
      ensures s.Some? && next + size > softLimit ==> s.value.committedLimit < next + size + 4096
    {
      if next + size <= softLimit then Some(this.(next := next + size))
      else
        match CommittedUpTo(next + size)
        case None => None
        case Some(s) => Some(s.(softLimit := s.committedLimit, next := next + size))
    }
  }

  predicate NoDuplicates(xs: seq<nat>) {
    forall i, j :: 0 <= i < j < |xs| ==> xs[i] != xs[j]
  }

  /** Copies of more than this get a space of their own, outside the zone. */
  const LARGE_THRESHOLD: nat := 0x10000

  /** The zone: spaces are numbered from 0; current and next are the ones allocation uses. */
  datatype State = State(spaces: seq<Space>, current: nat, next: nat, emptySpaces: seq<nat>, occupancy: seq<nat>,
    evacuated: seq<bool>)

  /** Every space is in its place; current and next are two spaces, counted as full, and next is
      still unused; the free spaces are others, listed once each, counted as empty; and none of
      these is evacuated. */
  ghost predicate Invariant(zone: Zone, z: State) {
    && Placed(zone, z) && Counts(z)
    && z.current < |z.spaces| && z.next < |z.spaces| && z.current != z.next
    && InUse(z, z.current) && InUse(z, z.next) && z.spaces[z.next].UsedSize() == 0
    && NoDuplicates(z.emptySpaces)
    && (forall e :: e in z.emptySpaces ==> e < |z.spaces| && e != z.current && e != z.next && Idle(z, e))
  }

  ghost predicate Placed(zone: Zone, z: State) {
    && zone.Valid() && |z.spaces| <= zone.MaxSpaces() == |z.occupancy| == |z.evacuated|
    && forall i :: 0 <= i < |z.spaces| ==> z.spaces[i].Valid() && z.spaces[i].base == zone.SpaceBase(i + 1)
  }

  /** Nothing is counted past the spaces, nor in those being evacuated. */
  predicate Counts(z: State) {
    && |z.occupancy| == |z.evacuated|
    && (forall i :: |z.spaces| <= i < |z.occupancy| ==> z.occupancy[i] == 0 && !z.evacuated[i])
    && (forall i :: 0 <= i < |z.occupancy| && z.evacuated[i] ==> z.occupancy[i] == 0)
  }

  predicate InUse(z: State, i: nat)
    requires i < |z.spaces| && i < |z.occupancy| == |z.evacuated|
  {
    z.occupancy[i] >= SPACE_SIZE && !z.evacuated[i] && z.spaces[i].softLimit == z.spaces[i].reservedLimit
  }

  predicate Idle(z: State, i: nat)
    requires i < |z.spaces| && i < |z.occupancy| == |z.evacuated|
  {
    z.spaces[i].IsFree() && z.occupancy[i] == 0 && !z.evacuated[i]
  }

  // ---- spaces come into use

  /** A new space after the others, or None when the zone is full. */
  function WithSpace(zone: Zone, z: State): (r: Option<State>)
    requires zone.Valid()
  {
    if |z.spaces| >= zone.MaxSpaces() then None
    else
      var base := zone.SpaceBase(|z.spaces| + 1);
      Some(z.(spaces := z.spaces + [Space(base, base, base, base, base + SPACE_SIZE)],
              emptySpaces := z.emptySpaces + [|z.spaces|]))
  }

  lemma WithSpaceKeeps(zone: Zone, z: State)
    requires Invariant(zone, z)
    ensures var r := WithSpace(zone, z);
      r.Some? ==>
        && Invariant(zone, r.value) && r.value.emptySpaces == z.emptySpaces + [|z.spaces|]
        && r.value.evacuated == z.evacuated
  {
    var r := WithSpace(zone, z);
    if r.Some? {
      forall i, j | 0 <= i < j < |r.value.emptySpaces| ensures r.value.emptySpaces[i] != r.value.emptySpaces[j] {
        assert z.emptySpaces[i] in z.emptySpaces;
      }
    }
  }

  /** The next space becomes current, and the free space listed last becomes next. */
  function Taken(z: State): State
    requires z.emptySpaces != []
    requires var e := z.emptySpaces[|z.emptySpaces| - 1];
      e < |z.spaces| && z.spaces[e].Valid() && z.spaces[e].IsFree() && e < |z.occupancy|
  {
    var e := z.emptySpaces[|z.emptySpaces| - 1];
    z.(current := z.next, next := e, emptySpaces := z.emptySpaces[..|z.emptySpaces| - 1],
       spaces := z.spaces[e := z.spaces[e].Opened()], occupancy := z.occupancy[e := SPACE_SIZE])
  }

  lemma TakenKeeps(zone: Zone, z: State)
    requires Invariant(zone, z) && z.emptySpaces != []
    ensures var e := z.emptySpaces[|z.emptySpaces| - 1];
      e in z.emptySpaces && e < |z.spaces| && z.spaces[e].Valid() && z.spaces[e].IsFree() && e < |z.occupancy|
    ensures Invariant(zone, Taken(z)) && Taken(z).evacuated == z.evacuated && Taken(z).current == z.next
    ensures |Taken(z).spaces| == |z.spaces|
  {
    var front, e := z.emptySpaces[..|z.emptySpaces| - 1], z.emptySpaces[|z.emptySpaces| - 1];
    assert forall x :: x in front ==> x in z.emptySpaces;
    assert e !in front;
  }

  function Bumped(zone: Zone, z: State): Option<State>
    requires zone.Valid()
  {
    var z1 := if z.emptySpaces == [] then WithSpace(zone, z) else Some(z);
    match z1
    case None => None
    case Some(z2) =>
      var e := z2.emptySpaces[|z2.emptySpaces| - 1];
      if e < |z2.spaces| && z2.spaces[e].Valid() && z2.spaces[e].IsFree() && e < |z2.occupancy| then Some(Taken(z2))
      else None
  }

  /** There is no next space only when none is free and the zone is full. */
  lemma BumpedKeeps(zone: Zone, z: State)
    requires Invariant(zone, z)
    ensures var r := Bumped(zone, z);
      && (r.None? <==> z.emptySpaces == [] && |z.spaces| == zone.MaxSpaces())
      && (r.Some? ==> Invariant(zone, r.value) && r.value.evacuated == z.evacuated && r.value.current == z.next)
  {
    if z.emptySpaces == [] {
      WithSpaceKeeps(zone, z);
      if |z.spaces| < zone.MaxSpaces() {
        TakenKeeps(zone, WithSpace(zone, z).value);
      }
    } else {
      TakenKeeps(zone, z);
    }
  }

  /** An object somewhere in a space: where it is, and that its region is not being evacuated. */
  ghost predicate Lands(zone: Zone, z: State, start: Address, size: nat) {
    && zone.Valid() && |z.evacuated| == zone.MaxSpaces()
    && forall a :: start <= a <= start + size ==>
      1 <= zone.RegionIndexOf(a) <= zone.MaxSpaces() && !z.evacuated[zone.RegionIndexOf(a) - 1]
  }

  lemma LandsInSpace(zone: Zone, z: State, i: nat, start: Address, size: nat)
    requires Placed(zone, z) && i < |z.spaces| && !z.evacuated[i]
    requires z.spaces[i].base <= start && start + size <= z.spaces[i].reservedLimit
    ensures Lands(zone, z, start, size)
  {
    SpaceInZone(zone, i + 1);
    forall a | start <= a <= start + size
      ensures 1 <= zone.RegionIndexOf(a) <= zone.MaxSpaces() && !z.evacuated[zone.RegionIndexOf(a) - 1]
    {
      IndexInvertsPlacement(zone, i + 1, a);
    }
  }

  /** Whatever is put into current space keeps the invariant. */
  lemma CurrentFilled(zone: Zone, z: State, s: Space)
    requires Invariant(zone, z) && s.Valid() && s.base == z.spaces[z.current].base && s.softLimit == s.reservedLimit
    ensures Invariant(zone, z.(spaces := z.spaces[z.current := s]))
  {}

  // ---- what a collection counts, chooses and releases

  /** Bytes of an object that stays where it is. */
  function Counted(zone: Zone, z: State, address: Address, bytes: nat): State
    requires zone.Valid() && |z.occupancy| == zone.MaxSpaces()
  {
    RegionInRange(zone, address);
    var index := zone.RegionIndexOf(address);
    if index < 0 then z else z.(occupancy := z.occupancy[index - 1 := z.occupancy[index - 1] + bytes])
  }

  /** An object that lives in a used part of a space that stays, or outside the zone. */
  ghost predicate Stays(zone: Zone, z: State, address: Address)
    requires Invariant(zone, z)
  {
    var index := zone.RegionIndexOf(address);
    index == -1 || (1 <= index <= |z.spaces| && !z.spaces[index - 1].IsFree() && !z.evacuated[index - 1])
  }

  lemma CountedKeeps(zone: Zone, z: State, address: Address, bytes: nat)
    requires Invariant(zone, z) && Stays(zone, z, address)
    ensures Invariant(zone, Counted(zone, z, address, bytes))
    ensures Counted(zone, z, address, bytes).evacuated == z.evacuated
  {
    RegionInRange(zone, address);
  }

  function Committed(spaces: seq<Space>): int {
    if spaces == [] then 0 else Committed(spaces[..|spaces| - 1]) + spaces[|spaces| - 1].CommittedSize()
  }

  function AvailableBytes(zone: Zone, z: State): int {
    (zone.limit - zone.base) / 2 - Committed(z.spaces)
  }

  /** Which of the spaces from i on are sparse enough, and fit in what is left to copy to. */
  function Chosen(z: State, i: nat, headroom: int, chosen: seq<bool>): (r: seq<bool>)
    requires i <= |z.spaces| <= |z.occupancy| == |chosen|
    ensures |r| == |chosen|
    decreases |z.spaces| - i
  {
    if i == |z.spaces| then chosen
    else if 0 < z.occupancy[i] < THRESHOLD && i != z.current && headroom > z.spaces[i].UsedSize() then
      Chosen(z, i + 1, headroom - z.spaces[i].UsedSize(), chosen[i := true])
    else Chosen(z, i + 1, headroom, chosen)
  }

  /** The bytes in use in the chosen spaces from i up to k. */
  function UsedIn(z: State, chosen: seq<bool>, i: nat, k: nat): int
    requires i <= k <= |z.spaces| <= |chosen|
    decreases k - i
  {
    if i == k then 0
    else (if chosen[i] then z.spaces[i].UsedSize() else 0) + UsedIn(z, chosen, i + 1, k)
  }

  /** Counted, but with less than eight tenths of 256 KB, and not the space allocation uses. */
  predicate IsSparse(z: State, k: nat)
    requires k < |z.occupancy|
  {
    0 < z.occupancy[k] && 10 * (z.occupancy[k] + 1) <= 8 * 262144 && k != z.current
  }

  /** A space is chosen exactly when it is sparse and what it uses fits in the headroom together
      with what the spaces chosen before it use. */
  lemma {:induction false} ChoiceExactly(z: State, i: nat, headroom: int, chosen: seq<bool>)
    requires i <= |z.spaces| <= |z.occupancy| == |chosen| && forall k :: i <= k < |chosen| ==> !chosen[k]
    ensures var r := Chosen(z, i, headroom, chosen);
      forall k: nat :: i <= k < |r| ==>
        (r[k] <==> k < |z.spaces| && IsSparse(z, k) && UsedIn(z, r, i, k) + z.spaces[k].UsedSize() < headroom)
    decreases |z.spaces| - i
  {
    if i < |z.spaces| {
      var r := Chosen(z, i, headroom, chosen);
      var take := 0 < z.occupancy[i] < THRESHOLD && i != z.current && headroom > z.spaces[i].UsedSize();
      var rest := if take then headroom - z.spaces[i].UsedSize() else headroom;
      var chosen' := if take then chosen[i := true] else chosen;
      ChoiceExactly(z, i + 1, rest, chosen');
      ChosenBefore(z, i + 1, rest, chosen');
      assert r == Chosen(z, i + 1, rest, chosen') && r[i] == take;
    }
  }

  lemma {:induction false} ChosenBefore(z: State, i: nat, headroom: int, chosen: seq<bool>)
    requires i <= |z.spaces| <= |z.occupancy| == |chosen|
    ensures forall k :: 0 <= k < i ==> Chosen(z, i, headroom, chosen)[k] == chosen[k]
    decreases |z.spaces| - i
  {
    if i < |z.spaces| {
      ChosenBefore(z, i + 1, headroom - z.spaces[i].UsedSize(), chosen[i := true]);
      ChosenBefore(z, i + 1, headroom, chosen);
    }
  }

  /** If all that is sparse uses less than the headroom together, all of it is chosen. */
  lemma AllSparseChosen(zone: Zone, z: State, headroom: int, sparse: seq<bool>)
    requires Invariant(zone, z) && |sparse| == |z.occupancy|
    requires forall k: nat :: k < |sparse| ==> (sparse[k] <==> k < |z.spaces| && IsSparse(z, k))
    requires UsedIn(z, sparse, 0, |z.spaces|) < headroom
    ensures Chosen(z, 0, headroom, seq(|z.occupancy|, _ => false)) == sparse
  {
    var r := Chosen(z, 0, headroom, seq(|z.occupancy|, _ => false));
    ChoiceExactly(z, 0, headroom, seq(|z.occupancy|, _ => false));
    forall k: nat | k < |r|
      ensures r[k] == sparse[k]
    {
      if sparse[k] {
        FewerUseLess(zone, z, r, sparse, 0, k);
        UsedUpTo(zone, z, sparse, 0, k);
      }
    }
  }

  lemma {:induction false} FewerUseLess(zone: Zone, z: State, few: seq<bool>, many: seq<bool>, i: nat, k: nat)
    requires Placed(zone, z) && i <= k <= |z.spaces| <= |few| == |many|
    requires forall j :: i <= j < k && few[j] ==> many[j]
    ensures UsedIn(z, few, i, k) <= UsedIn(z, many, i, k)
    decreases k - i
  {
    if i < k {
      FewerUseLess(zone, z, few, many, i + 1, k);
    }
  }

  /** What is used up to a chosen space, itself included, is part of all that is used. */
  lemma {:induction false} UsedUpTo(zone: Zone, z: State, chosen: seq<bool>, i: nat, k: nat)
    requires Placed(zone, z) && i <= k < |z.spaces| <= |chosen| && chosen[k]
    ensures UsedIn(z, chosen, i, k) + z.spaces[k].UsedSize() <= UsedIn(z, chosen, i, |z.spaces|)
    decreases k - i
  {
    if i < k {
      UsedUpTo(zone, z, chosen, i + 1, k);
    } else {
      UsedIsPositive(zone, z, chosen, i + 1);
    }
  }

  lemma {:induction false} UsedIsPositive(zone: Zone, z: State, chosen: seq<bool>, i: nat)
    requires Placed(zone, z) && i <= |z.spaces| <= |chosen|
    ensures 0 <= UsedIn(z, chosen, i, |z.spaces|)
    decreases |z.spaces| - i
  {
    if i < |z.spaces| {
      UsedIsPositive(zone, z, chosen, i + 1);
    }
  }

  /** What is chosen is sparse, not current and not next, not free; and all of it together takes
      less than the headroom. */
  lemma {:induction false} ChoiceIsSafe(zone: Zone, z: State, i: nat, headroom: int, chosen: seq<bool>)
    requires Invariant(zone, z) && i <= |z.spaces| && |chosen| == |z.occupancy|
    requires forall k :: i <= k < |chosen| ==> !chosen[k]
    ensures var r := Chosen(z, i, headroom, chosen);
      && (forall k :: 0 <= k < i ==> r[k] == chosen[k])
      && (forall k :: i <= k < |r| && r[k] ==>
        k < |z.spaces| && 0 < z.occupancy[k] < THRESHOLD && k != z.current && k != z.next && k !in z.emptySpaces)
      && (UsedIn(z, r, i, |z.spaces|) < headroom || forall k :: i <= k < |r| ==> !r[k])
    decreases |z.spaces| - i
  {
    if i < |z.spaces| {
      var r := Chosen(z, i, headroom, chosen);
      if 0 < z.occupancy[i] < THRESHOLD && i != z.current && headroom > z.spaces[i].UsedSize() {
        ChoiceIsSafe(zone, z, i + 1, headroom - z.spaces[i].UsedSize(), chosen[i := true]);
        if forall k :: i + 1 <= k < |r| ==> !r[k] {
          NothingUsed(z, r, i + 1);
        }
      } else {
        ChoiceIsSafe(zone, z, i + 1, headroom, chosen);
      }
    }
  }

  lemma {:induction false} NothingUsed(z: State, chosen: seq<bool>, i: nat)
    requires i <= |z.spaces| <= |chosen| && forall k :: i <= k < |chosen| ==> !chosen[k]
    ensures UsedIn(z, chosen, i, |z.spaces|) == 0
    decreases |z.spaces| - i
  {
    if i < |z.spaces| {
      NothingUsed(z, chosen, i + 1);
    }
  }

  /** The choice is made by what the last collection counted, and counting starts afresh. */
  function Determined(zone: Zone, z: State): State
    requires |z.spaces| <= |z.occupancy| && z.current < |z.occupancy| && z.next < |z.occupancy|
  {
    z.(evacuated := Chosen(z, 0, AvailableBytes(zone, z) * 9 / 10, seq(|z.occupancy|, _ => false)),
       occupancy := seq(|z.occupancy|, _ => 0)[z.current := SPACE_SIZE][z.next := SPACE_SIZE])
  }

  lemma DeterminedKeeps(zone: Zone, z: State)
    requires Invariant(zone, z)
    ensures Invariant(zone, Determined(zone, z))
  {
    ChoiceIsSafe(zone, z, 0, AvailableBytes(zone, z) * 9 / 10, seq(|z.occupancy|, _ => false));
    var r := Determined(zone, z);
    forall e | e in r.emptySpaces ensures Idle(r, e) {
      assert Idle(z, e);
    }
  }

  /** Bytes of the spaces that are not committed. */
  function Uncommitted(spaces: seq<Space>): int {
    if spaces == [] then 0
    else Uncommitted(spaces[1..]) + spaces[0].reservedLimit - spaces[0].committedLimit
  }

  lemma {:induction false} CommittedAndNot(zone: Zone, spaces: seq<Space>)
    requires forall i :: 0 <= i < |spaces| ==> spaces[i].Valid()
    ensures Committed(spaces) + Uncommitted(spaces) == |spaces| * SPACE_SIZE && Uncommitted(spaces) >= 0
  {
    if spaces != [] {
      CommittedAndNot(zone, spaces[1..]);
      CommittedFirst(spaces);
    }
  }

  lemma {:induction false} CommittedFirst(spaces: seq<Space>)
    requires spaces != []
    ensures Committed(spaces) == spaces[0].CommittedSize() + Committed(spaces[1..])
  {
    if |spaces| > 1 {
      CommittedFirst(spaces[..|spaces| - 1]);
      assert spaces[..|spaces| - 1][1..] == spaces[1..][..|spaces| - 2];
    }
  }

  /** What is available is the spaces still to come and what the others have not committed. */
  lemma AvailableIsLeft(zone: Zone, z: State)
    requires Placed(zone, z)
    ensures AvailableBytes(zone, z) == (zone.MaxSpaces() - |z.spaces|) * SPACE_SIZE + Uncommitted(z.spaces)
    ensures AvailableBytes(zone, z) >= 0
  {
    CommittedAndNot(zone, z.spaces);
    RegionInRange(zone, zone.base);
    var size := zone.limit - zone.base;
    assert size == size / (2 * SPACE_SIZE) * (2 * SPACE_SIZE);
  }

  /** Which spaces a collection empties, and that counting starts again with all but current and
      next at zero: the first sparse ones that together use less than nine tenths of what is left. */
  lemma DeterminedExactly(zone: Zone, z: State)
    requires Invariant(zone, z)
    ensures var r := Determined(zone, z);
      var left := (zone.MaxSpaces() - |z.spaces|) * 262144 + Uncommitted(z.spaces);
      && |r.evacuated| == |r.occupancy| == |z.occupancy| && r.spaces == z.spaces && r.emptySpaces == z.emptySpaces
      && r.current == z.current && r.next == z.next
      && (forall k: nat :: k < |r.evacuated| ==>
        (r.evacuated[k] <==>
          && k < |z.spaces| && IsSparse(z, k)
          && UsedIn(z, r.evacuated, 0, k) + z.spaces[k].UsedSize() < left * 9 / 10))
      && (forall k :: 0 <= k < |r.occupancy| ==> r.occupancy[k] == if k == z.current || k == z.next then 262144 else 0)
  {
    hide Chosen, UsedIn, IsSparse, Committed, Uncommitted;
    AvailableIsLeft(zone, z);
    ChoiceExactly(z, 0, AvailableBytes(zone, z) * 9 / 10, seq(|z.occupancy|, _ => false));
  }

  /** A space that is given back: evacuated, or committed with nothing in it. */
  predicate Recyclable(z: State, i: nat)
    requires i < |z.spaces| && i < |z.evacuated| == |z.occupancy|
  {
    z.evacuated[i] || (z.occupancy[i] == 0 && z.spaces[i].CommittedSize() > 0)
  }

  /** The first spaces given back, all but the last being looked at. */
  function Recycled(z: State, i: nat): (r: State)
    requires i <= |z.spaces| <= |z.evacuated| == |z.occupancy|
    requires forall k :: 0 <= k < |z.spaces| ==> z.spaces[k].Valid()
    ensures |r.spaces| == |z.spaces| && forall k :: 0 <= k < |z.spaces| ==> r.spaces[k].Valid()
    ensures r == z.(spaces := r.spaces, emptySpaces := r.emptySpaces)
  {
    if i == 0 then z
    else
      var z1 := Recycled(z, i - 1);
      if Recyclable(z, i - 1) then
        z1.(spaces := z1.spaces[i - 1 := z1.spaces[i - 1].Released()], emptySpaces := z1.emptySpaces + [i - 1])
      else z1
  }

  function ReleasedEvacuated(z: State): State
    requires 0 < |z.spaces| <= |z.evacuated| == |z.occupancy| && forall k :: 0 <= k < |z.spaces| ==> z.spaces[k].Valid()
  {
    Recycled(z, |z.spaces| - 1).(evacuated := seq(|z.evacuated|, _ => false))
  }

  /** What a pass over the spaces can rely on. */
  predicate Shaped(z: State) {
    && |z.spaces| <= |z.evacuated| == |z.occupancy| && (forall k :: 0 <= k < |z.spaces| ==> z.spaces[k].Valid())
    && NoDuplicates(z.emptySpaces)
    && forall e :: e in z.emptySpaces ==> e < |z.spaces| && !Recyclable(z, e)
  }

  lemma FreeIsNotRecyclable(zone: Zone, z: State)
    requires Invariant(zone, z)
    ensures Shaped(z)
  {
    forall e | e in z.emptySpaces ensures e < |z.spaces| && !Recyclable(z, e) {
      assert Idle(z, e);
    }
  }

  /** The free spaces afterwards are those there were and those given back, once each. */
  lemma {:induction false} RecycledOnce(z: State, i: nat)
    requires Shaped(z) && i <= |z.spaces|
    ensures var r := Recycled(z, i);
      && NoDuplicates(r.emptySpaces)
      && (forall e: nat :: e in r.emptySpaces <==> e in z.emptySpaces || (e < i && Recyclable(z, e)))
      && (forall k :: 0 <= k < |z.spaces| ==>
            r.spaces[k] == if k < i && Recyclable(z, k) then z.spaces[k].Released() else z.spaces[k])
  {
    hide Recyclable;
    if i > 0 {
      RecycledOnce(z, i - 1);
      var z1, r := Recycled(z, i - 1), Recycled(z, i);
      if Recyclable(z, i - 1) {
        assert i - 1 !in z1.emptySpaces;
        assert r.emptySpaces == z1.emptySpaces + [i - 1];
        assert forall e: nat :: e in r.emptySpaces <==> e in z1.emptySpaces || e == i - 1;
      }
    }
  }

  /** Afterwards nothing is being evacuated; and of the evacuated spaces all are free but the
      zone's last, if it was one of them. */
  lemma ReleaseKeeps(zone: Zone, z: State)
    requires Invariant(zone, z)
    ensures var r := ReleasedEvacuated(z);
      && Invariant(zone, r)
      && (forall i :: 0 <= i < |r.evacuated| ==> !r.evacuated[i])
      && (forall i :: 0 <= i < |z.spaces| && z.evacuated[i] ==> (i in r.emptySpaces <==> i != |z.spaces| - 1))
  {
    hide Recycled, Recyclable;
    FreeIsNotRecyclable(zone, z);
    RecycledOnce(z, |z.spaces| - 1);
    var r := ReleasedEvacuated(z);
    forall e | e in r.emptySpaces ensures e < |r.spaces| && e != r.current && e != r.next && Idle(r, e) {
      IdleAfterwards(zone, z, r, e);
    }
    CountsAfterwards(z, r);
    forall i | 0 <= i < |z.spaces| && z.evacuated[i] ensures i in r.emptySpaces <==> i != |z.spaces| - 1 {
      EvacuatedIsRecyclable(zone, z, i);
    }
  }

  lemma CountsAfterwards(z: State, r: State)
    requires Counts(z) && r.occupancy == z.occupancy && |r.spaces| == |z.spaces|
    requires r.evacuated == seq(|z.evacuated|, _ => false)
    ensures Counts(r)
  {}

  lemma EvacuatedIsRecyclable(zone: Zone, z: State, i: nat)
    requires Invariant(zone, z) && i < |z.spaces| && z.evacuated[i]
    ensures Recyclable(z, i) && i !in z.emptySpaces
  {
    assert forall e :: e in z.emptySpaces ==> Idle(z, e);
  }

  lemma IdleAfterwards(zone: Zone, z: State, r: State, e: nat)
    requires Invariant(zone, z) && e < |z.spaces| == |r.spaces| && (e in z.emptySpaces || Recyclable(z, e))
    requires r.occupancy == z.occupancy && r.evacuated == seq(|z.evacuated|, _ => false)
    requires r.spaces[e] == if Recyclable(z, e) then z.spaces[e].Released() else z.spaces[e]
    ensures e != z.current && e != z.next && Idle(r, e)
  {
    if e in z.emptySpaces {
      assert Idle(z, e);
    }
  }

  // ---- placing objects

  /** Where an object goes: in the zone, in a space of its own, or nowhere. */
  datatype Placement = InZone(start: Address) | Outside | OutOfMemory

  function PutInCurrent(z: State, s: Space): State
    requires z.current < |z.spaces|
  {
    z.(spaces := z.spaces[z.current := s])
  }

  /** A space with room for an object; copies may fill it to the end. */
  function WithRoom(s: Space, size: nat, copying: bool): Option<Space>
    requires s.Valid()
  {
    if copying then s.AllocatedCommitting(size) else s.Allocated(size)
  }

  /** In current space; if it does not fit, small objects go to the next one. */
  function Put(zone: Zone, z: State, size: nat, copying: bool): (State, Placement)
    requires zone.Valid() && z.current < |z.spaces| && z.spaces[z.current].Valid()
  {
    match WithRoom(z.spaces[z.current], size, copying)
    case Some(s) => (PutInCurrent(z, s), InZone(z.spaces[z.current].next))
    case None =>
      if size > LARGE_THRESHOLD then (z, Outside)
      else
        match Bumped(zone, z)
        case None => (z, OutOfMemory)
        case Some(z1) =>
          if z1.current < |z1.spaces| && z1.spaces[z1.current].Valid() then
            match WithRoom(z1.spaces[z1.current], size, copying)
            case Some(s) => (PutInCurrent(z1, s), InZone(z1.spaces[z1.current].next))
            case None => (z1, OutOfMemory)
          else (z1, OutOfMemory)
  }

  /** Objects, copies included, never land in a region that is being evacuated, and there is room
      for a small one unless no space is free and the zone is full. */
  lemma PutKeeps(zone: Zone, z: State, size: nat, copying: bool)
    requires Invariant(zone, z)
    ensures var (r, where) := Put(zone, z, size, copying);
      && Invariant(zone, r) && r.evacuated == z.evacuated
      && (where.InZone? ==> Lands(zone, r, where.start, size))
      && (where.OutOfMemory? ==> z.emptySpaces == [] && |z.spaces| == zone.MaxSpaces())
  {
    hide Bumped, Lands;
    var s := z.spaces[z.current];
    if WithRoom(s, size, copying).Some? {
      PutInSpace(zone, z, size, copying);
    } else if size <= LARGE_THRESHOLD {
      BumpedKeeps(zone, z);
      if Bumped(zone, z).Some? {
        FitsInNext(zone, z, size, copying);
        PutInSpace(zone, Bumped(zone, z).value, size, copying);
      }
    }
  }

  /** An object goes to current space if there is room, for a copy up to the very end; of those
      that do not fit, the ones of more than 64 KB go outside, and the others to the beginning of
      the next space, which is current from then on, unless there can be no next space. */
  lemma PutExactly(zone: Zone, z: State, size: nat, copying: bool)
    requires Invariant(zone, z)
    ensures var (r, where) := Put(zone, z, size, copying);
      var s := z.spaces[z.current];
      var fits := if copying then s.next + size <= s.reservedLimit else s.next + size < s.softLimit;
      var full := z.emptySpaces == [] && |z.spaces| == zone.MaxSpaces();
      && where == (if fits then InZone(s.next)
                   else if size > 65536 then Outside
                   else if full then OutOfMemory
                   else InZone(z.spaces[z.next].base))
      && r.current == (if fits || size > 65536 || full then z.current else z.next)
  {
    hide Invariant, Lands;
    InvariantHolds(zone, z);
    BumpedKeeps(zone, z);
    if Bumped(zone, z).Some? {
      NextBecomesCurrent(zone, z);
      if size <= LARGE_THRESHOLD {
        FitsInNext(zone, z, size, copying);
      }
    }
  }

  lemma InvariantHolds(zone: Zone, z: State)
    requires Invariant(zone, z)
    ensures zone.Valid() && z.current < |z.spaces| && z.next < |z.spaces| && z.spaces[z.current].Valid()
    ensures z.spaces[z.next].next == z.spaces[z.next].base
  {}

  lemma NextBecomesCurrent(zone: Zone, z: State)
    requires Invariant(zone, z) && Bumped(zone, z).Some?
    ensures var r := Bumped(zone, z).value;
      r.current == z.next < |z.spaces| <= |r.spaces| && r.spaces[z.next] == z.spaces[z.next]
  {
    var z1 := if z.emptySpaces == [] then WithSpace(zone, z).value else z;
    assert z1.emptySpaces[|z1.emptySpaces| - 1] in z1.emptySpaces;
  }

  lemma PutInSpace(zone: Zone, z: State, size: nat, copying: bool)
    requires Invariant(zone, z) && WithRoom(z.spaces[z.current], size, copying).Some?
    ensures var s := WithRoom(z.spaces[z.current], size, copying).value;
      Invariant(zone, PutInCurrent(z, s)) && Lands(zone, PutInCurrent(z, s), z.spaces[z.current].next, size)
  {
    hide Lands;
    var s := WithRoom(z.spaces[z.current], size, copying).value;
    CurrentFilled(zone, z, s);
    LandsInSpace(zone, PutInCurrent(z, s), z.current, z.spaces[z.current].next, size);
  }

  /** The space that was next is empty, so a small object fits. */
  lemma FitsInNext(zone: Zone, z: State, size: nat, copying: bool)
    requires Invariant(zone, z) && size <= LARGE_THRESHOLD && Bumped(zone, z).Some?
    ensures var z1 := Bumped(zone, z).value;
      z1.current < |z1.spaces| && z1.spaces[z1.current].Valid() && WithRoom(z1.spaces[z1.current], size, copying).Some?
  {
    if z.emptySpaces == [] {
      WithSpaceKeeps(zone, z);
      TakenKeeps(zone, WithSpace(zone, z).value);
    } else {
      TakenKeeps(zone, z);
    }
  }

  // ---- runs

  /** What happens to the zone: allocation, and the steps of a collection. */
  datatype Event = Allocate(size: nat) | Start | Mark(address: Address, bytes: nat) | Copy(size: nat) | End

  ghost predicate Possible(zone: Zone, z: State, event: Event)
    requires Invariant(zone, z)
  {
    event.Mark? ==> Stays(zone, z, event.address)
  }

  function After(zone: Zone, z: State, event: Event): State
    requires zone.Valid() && z.current < |z.spaces| && z.spaces[z.current].Valid()
    requires |z.spaces| <= |z.occupancy| == |z.evacuated| == zone.MaxSpaces() && z.next < |z.occupancy|
    requires forall k :: 0 <= k < |z.spaces| ==> z.spaces[k].Valid()
  {
    match event
    case Allocate(size) => Put(zone, z, size, false).0
    case Start => Determined(zone, z)
    case Mark(address, bytes) => Counted(zone, z, address, bytes)
    case Copy(size) => Put(zone, z, size, true).0
    case End => ReleasedEvacuated(z)
  }

  lemma EventKeepsInvariant(zone: Zone, z: State, event: Event)
    requires Invariant(zone, z) && Possible(zone, z, event)
    ensures Invariant(zone, After(zone, z, event))
    ensures !event.Start? && !event.End? ==> After(zone, z, event).evacuated == z.evacuated
  {
    hide Invariant, Put, Determined, ReleasedEvacuated, Counted;
    match event
    case Allocate(size) => PutKeeps(zone, z, size, false);
    case Start => DeterminedKeeps(zone, z);
    case Mark(address, bytes) => CountedKeeps(zone, z, address, bytes);
    case Copy(size) => PutKeeps(zone, z, size, true);
    case End => ReleaseKeeps(zone, z);
  }

  /** A run: states from one to the next, each event possible where it comes. */
  ghost predicate IsRun(zone: Zone, states: seq<State>, events: seq<Event>) {
    && |states| == |events| + 1 && Invariant(zone, states[0])
    && forall i :: 0 <= i < |events| && Invariant(zone, states[i]) ==>
      Possible(zone, states[i], events[i]) && states[i + 1] == After(zone, states[i], events[i])
  }

  /** Over every run of allocations and collections the invariant holds, and no object that is
      allocated or copied lands in a space that is being evacuated. */
  lemma {:induction false} RunsKeepInvariant(zone: Zone, states: seq<State>, events: seq<Event>, n: nat)
    requires IsRun(zone, states, events) && n < |states|
    ensures Invariant(zone, states[n])
    ensures forall size: nat, copying: bool ::
      var (r, where) := Put(zone, states[n], size, copying);
      where.InZone? ==> Lands(zone, r, where.start, size)
  {
    hide Put, Lands;
    if n > 0 {
      RunsKeepInvariant(zone, states, events, n - 1);
      assert Invariant(zone, states[n - 1]);
      EventKeepsInvariant(zone, states[n - 1], events[n - 1]);
    }
    forall size: nat, copying: bool
      ensures var (r, where) := Put(zone, states[n], size, copying); where.InZone? ==> Lands(zone, r, where.start, size)
    {
      PutKeeps(zone, states[n], size, copying);
    }
  }

  // ---- what a collection gives back

  /** The bytes of the objects marked in a space, objects without a body counting nothing. */
  function MarkedIn(zone: Zone, events: seq<Event>, i: nat): nat {
    if events == [] then 0
    else
      var last := events[|events| - 1];
      MarkedIn(zone, events[..|events| - 1], i)
      + if last.Mark? && zone.RegionIndexOf(last.address) == i + 1 then last.bytes else 0
  }

  lemma {:induction false} NothingMarkedIn(zone: Zone, events: seq<Event>, i: nat)
    ensures MarkedIn(zone, events, i) == 0
      <==> forall e :: e in events && e.Mark? && zone.RegionIndexOf(e.address) == i + 1 ==> e.bytes == 0
  {
    if events != [] {
      NothingMarkedIn(zone, events[..|events| - 1], i);
      assert events == events[..|events| - 1] + [events[|events| - 1]];
    }
  }

  /** A space that is neither allocated in nor free. */
  predicate Settled(z: State, i: nat) {
    i < |z.spaces| && i != z.current && i != z.next && i !in z.emptySpaces
  }

  lemma BumpKeepsSettled(zone: Zone, z: State, i: nat)
    requires Invariant(zone, z) && Settled(z, i) && Bumped(zone, z).Some?
    ensures var r := Bumped(zone, z).value;
      && Settled(r, i) && |r.occupancy| == |z.occupancy| > i
      && r.occupancy[i] == z.occupancy[i] && r.spaces[i] == z.spaces[i]
  {
    var z1 := if z.emptySpaces == [] then WithSpace(zone, z).value else z;
    assert z1.emptySpaces[|z1.emptySpaces| - 1] in z1.emptySpaces;
  }

  /** Allocation leaves settled spaces alone. */
  lemma PutKeepsSettled(zone: Zone, z: State, size: nat, copying: bool, i: nat)
    requires Invariant(zone, z) && Settled(z, i)
    ensures var r := Put(zone, z, size, copying).0;
      && Settled(r, i) && |r.occupancy| == |z.occupancy| > i
      && r.occupancy[i] == z.occupancy[i] && r.spaces[i] == z.spaces[i]
  {
    hide Bumped, WithRoom;
    if Bumped(zone, z).Some? {
      BumpKeepsSettled(zone, z, i);
    }
  }

  /** The run of a collection: it starts, marks and copies, and ends. */
  ghost predicate IsCollection(zone: Zone, states: seq<State>, events: seq<Event>) {
    && IsRun(zone, states, events) && |events| >= 2 && events[0].Start? && events[|events| - 1].End?
    && forall k :: 0 < k < |events| - 1 ==> events[k].Mark? || events[k].Copy?
  }

  /** While a collection goes on, a settled space is counted just the bytes marked in it. */
  lemma {:induction false} SettledCounts(zone: Zone, states: seq<State>, events: seq<Event>, i: nat, k: nat)
    requires IsCollection(zone, states, events) && Settled(states[0], i) && 0 < k < |events|
    ensures Invariant(zone, states[k]) && Settled(states[k], i) && states[k].spaces[i] == states[0].spaces[i]
    ensures states[k].occupancy[i] == MarkedIn(zone, events[1..k], i) && states[k].evacuated == states[1].evacuated
  {
    hide Put, Invariant, Determined, Counted;
    if k == 1 {
      EventKeepsInvariant(zone, states[0], Start);
      CountedFromNothing(zone, states[0], i);
      assert events[1..1] == [];
    } else {
      SettledCounts(zone, states, events, i, k - 1);
      var z, event := states[k - 1], events[k - 1];
      EventKeepsInvariant(zone, z, event);
      assert events[1..k] == events[1..k - 1] + [event];
      if event.Copy? {
        PutKeepsSettled(zone, z, event.size, true, i);
      } else {
        CountedMore(zone, z, event.address, event.bytes, i);
      }
    }
  }

  lemma CountedFromNothing(zone: Zone, z: State, i: nat)
    requires Invariant(zone, z) && Settled(z, i)
    ensures var r := Determined(zone, z);
      Settled(r, i) && |r.occupancy| > i && r.occupancy[i] == 0 && r.spaces == z.spaces
  {}

  lemma CountedMore(zone: Zone, z: State, address: Address, bytes: nat, i: nat)
    requires Invariant(zone, z) && Settled(z, i)
    ensures var r := Counted(zone, z, address, bytes);
      && Settled(r, i) && r.spaces == z.spaces && |r.occupancy| == |z.occupancy| > i
      && r.occupancy[i] == z.occupancy[i] + if zone.RegionIndexOf(address) == i + 1 then bytes else 0
  {
    RegionInRange(zone, address);
  }

  /** What a collection gives back of the spaces that were settled when it started: those before
      the last that were evacuated, and those in which everything that was marked has an empty
      body, marked objects or not. */
  lemma GivenBack(zone: Zone, states: seq<State>, events: seq<Event>, i: nat)
    requires IsCollection(zone, states, events) && Settled(states[0], i)
    ensures var end := states[|events| - 1];
      && i < |end.spaces| && |end.evacuated| > i
      && (i in states[|events|].emptySpaces <==>
            && i < |end.spaces| - 1
            && (end.evacuated[i]
                || (states[0].spaces[i].CommittedSize() > 0
                    && forall e :: e in events[1..|events| - 1] && e.Mark? && zone.RegionIndexOf(e.address) == i + 1 ==>
                         e.bytes == 0)))
  {
    hide Invariant, Recycled, After;
    var n := |events| - 1;
    var end := states[n];
    SettledCounts(zone, states, events, i, n);
    NothingMarkedIn(zone, events[1..n], i);
    FreeIsNotRecyclable(zone, end);
    RecycledOnce(end, |end.spaces| - 1);
    assert Invariant(zone, end);
    EndReleases(zone, end);
    ReleaseLists(end);
  }

  lemma EndReleases(zone: Zone, z: State)
    requires Invariant(zone, z)
    ensures Shaped(z) && |z.spaces| > 0 && After(zone, z, End) == ReleasedEvacuated(z)
  {
    hide ReleasedEvacuated, Recyclable;
    FreeIsNotRecyclable(zone, z);
  }

  lemma ReleaseLists(z: State)
    requires Shaped(z) && |z.spaces| > 0
    ensures ReleasedEvacuated(z).emptySpaces == Recycled(z, |z.spaces| - 1).emptySpaces
  {
    hide Recycled, Recyclable, NoDuplicates;
  }

  /** A zone of three spaces: in the first there is one object, all header, and the others are
      the current and the next one. */
  const SMALL_ZONE := Zone(0, 6 * SPACE_SIZE)

  function OpenSpace(index: int, used: nat): Space {
    var base := SMALL_ZONE.SpaceBase(index);
    Space(base, base + used, base + SPACE_SIZE, base + SPACE_SIZE, base + SPACE_SIZE)
  }

  const BEFORE := State([OpenSpace(1, 8), OpenSpace(2, 0), OpenSpace(3, 0)], 1, 2, [],
                        [SPACE_SIZE, SPACE_SIZE, SPACE_SIZE], [false, false, false])

  lemma BeforeIsValid()
    ensures Invariant(SMALL_ZONE, BEFORE) && Settled(BEFORE, 0)
  {
    RegionInRange(SMALL_ZONE, 0);
    assert SMALL_ZONE.MaxSpaces() == 3;
  }

  /** Nothing is chosen, and counting starts afresh. */
  lemma BeforeStarted()
    requires Invariant(SMALL_ZONE, BEFORE)
    ensures Determined(SMALL_ZONE, BEFORE) == BEFORE.(occupancy := [0, SPACE_SIZE, SPACE_SIZE])
  {
    hide Invariant, Committed;
    var none := seq(3, _ => false);
    var headroom := AvailableBytes(SMALL_ZONE, BEFORE) * 9 / 10;
    assert Chosen(BEFORE, 3, headroom, none) == none;
    assert Chosen(BEFORE, 2, headroom, none) == none;
    assert Chosen(BEFORE, 1, headroom, none) == none;
    assert Chosen(BEFORE, 0, headroom, none) == none;
    assert none == BEFORE.evacuated;
    assert seq(3, _ => 0)[1 := SPACE_SIZE][2 := SPACE_SIZE] == [0, SPACE_SIZE, SPACE_SIZE];
  }

  /** A counterexample: the one object marked in a space has an empty body, and the space is given
      back with the object in it. */
  lemma MarkedSpaceGivenBack() returns (states: seq<State>, events: seq<Event>)
    ensures events == [Start, Mark(8, 0), End] && IsCollection(SMALL_ZONE, states, events)
    ensures SMALL_ZONE.RegionIndexOf(8) == 1 && 0 in states[3].emptySpaces
  {
    hide Recycled, Invariant, Determined;
    BeforeIsValid();
    BeforeStarted();
    EventKeepsInvariant(SMALL_ZONE, BEFORE, Start);
    var z1 := BEFORE.(occupancy := [0, SPACE_SIZE, SPACE_SIZE]);
    IndexInvertsPlacement(SMALL_ZONE, 1, 8);
    assert SMALL_ZONE.RegionIndexOf(8) == 1;
    assert Counted(SMALL_ZONE, z1, 8, 0).occupancy == z1.occupancy;
    EventKeepsInvariant(SMALL_ZONE, z1, Mark(8, 0));
    EndReleases(SMALL_ZONE, z1);
    states, events := [BEFORE, z1, z1, ReleasedEvacuated(z1)], [Start, Mark(8, 0), End];
    GivenBack(SMALL_ZONE, states, events, 0);
    assert events[1..2] == [Mark(8, 0)];
  }

  // ---- the zone itself

  class OldZone {
    const zone: Zone
    var spaces: seq<Space>
    var current: nat
    var next: nat
    var emptySpaces: seq<nat>
    var occupancy: seq<nat>
    var evacuated: seq<bool>
    var nextFree: Address

    function Now(): State
      reads `spaces, `current, `next, `emptySpaces, `occupancy, `evacuated
    {
      State(spaces, current, next, emptySpaces, occupancy, evacuated)
    }

    /** Where the next space would go. */
    predicate Tracks()
      reads `spaces, `nextFree
    {
      nextFree == zone.SpaceBase(|spaces| + 1)
    }

    /** How many spaces there are, by where the next one would go. */
    function RegionCount(): (count: int)
      requires Invariant(zone, Now()) && Tracks()
      reads this
      ensures count == |spaces|
    {
      PlaceCountsSpaces(zone, |spaces|);
      zone.IndexOfPointer(nextFree - 1)
    }

    /** Two spaces are needed to begin with. */
    constructor (zone: Zone)
      requires zone.Valid() && zone.MaxSpaces() >= 2
      ensures this.zone == zone && Invariant(zone, Now()) && Tracks() && |spaces| == 2 && emptySpaces == []
    {
      this.zone := zone;
      var first, second := zone.SpaceBase(1), zone.SpaceBase(2);
      spaces := [
        Space(first, first, first, first, first + SPACE_SIZE).Opened(),
        Space(second, second, second, second, second + SPACE_SIZE).Opened()];
      nextFree := zone.SpaceBase(3);
      current, next, emptySpaces := 0, 1, [];
      occupancy := seq(zone.MaxSpaces(), _ => 0)[0 := SPACE_SIZE][1 := SPACE_SIZE];
      evacuated := seq(zone.MaxSpaces(), _ => false);
    }

    /** False when the zone is full. */
    method CreateEmptySpace() returns (ok: bool)
      requires Invariant(zone, Now()) && Tracks()
      modifies `spaces, `emptySpaces, `nextFree
      ensures Tracks() && ok == WithSpace(zone, old(Now())).Some?
      ensures Now() == if ok then WithSpace(zone, old(Now())).value else old(Now())
    {
      hide Invariant;
      RoomForOneMore();
      ok := nextFree != zone.limit;
      if ok {
        var start := nextFree;
        var end := nextFree + SPACE_SIZE;
        nextFree := end + SPACE_SIZE;
        emptySpaces := emptySpaces + [|spaces|];
        spaces := spaces + [Space(start, start, start, start, end)];
      }
    }

    lemma RoomForOneMore()
      requires Invariant(zone, Now()) && Tracks()
      ensures nextFree == zone.limit <==> |spaces| >= zone.MaxSpaces()
      ensures zone.Valid() && nextFree + SPACE_SIZE + SPACE_SIZE == zone.SpaceBase(|spaces| + 2)
    {
      PlaceCountsSpaces(zone, |spaces|);
    }

    method BumpSpace() returns (ok: bool)
      requires Invariant(zone, Now()) && Tracks()
      modifies this
      ensures Tracks() && ok == Bumped(zone, old(Now())).Some?
      ensures Now() == if ok then Bumped(zone, old(Now())).value else old(Now())
    {
      hide Invariant, Taken;
      BumpedKeeps(zone, Now());
      WithSpaceKeeps(zone, Now());
      ok := true;
      if emptySpaces == [] {
        ok := CreateEmptySpace();
      }
      if ok {
        TakenKeeps(zone, Now());
        TakeFree();
      }
    }

    method TakeFree()
      requires Invariant(zone, Now()) && Tracks() && emptySpaces != []
      requires var e := emptySpaces[|emptySpaces| - 1];
        e < |spaces| && spaces[e].Valid() && spaces[e].IsFree() && e < |occupancy|
      modifies `spaces, `current, `next, `emptySpaces, `occupancy
      ensures Tracks() && Now() == Taken(old(Now()))
    {
      hide Invariant;
      var e := emptySpaces[|emptySpaces| - 1];
      current, next := next, e;
      emptySpaces := emptySpaces[..|emptySpaces| - 1];
      spaces := spaces[e := spaces[e].Opened()];
      occupancy := occupancy[e := SPACE_SIZE];
    }

    method TryCurrent(size: nat, copying: bool) returns (start: Option<Address>)
      requires Invariant(zone, Now())
      modifies `spaces
      ensures var s := WithRoom(old(spaces[current]), size, copying);
        && (s.None? ==> start.None? && Now() == old(Now()))
        && (s.Some? ==> start == Some(old(spaces[current].next)) && Now() == PutInCurrent(old(Now()), s.value))
    {
      start := None;
      var s := WithRoom(spaces[current], size, copying);
      if s.Some? {
        start := Some(spaces[current].next);
        spaces := spaces[current := s.value];
      }
    }

    /** Memory for an object, or for the copy of one. */
    method PutObject(size: nat, copying: bool) returns (where: Placement)
      requires Invariant(zone, Now()) && Tracks()
      modifies this
      ensures Tracks() && (Now(), where) == Put(zone, old(Now()), size, copying)
      ensures Invariant(zone, Now()) && (where.InZone? ==> Lands(zone, Now(), where.start, size))
    {
      hide Bumped, Lands, Invariant;
      ValidNow();
      PutKeeps(zone, Now(), size, copying);
      var start := TryCurrent(size, copying);
      if start.Some? {
        return InZone(start.value);
      }
      if size > LARGE_THRESHOLD {
        return Outside;
      }
      BumpedKeeps(zone, Now());
      if Bumped(zone, Now()).Some? {
        FitsInNext(zone, Now(), size, copying);
      }
      var ok := BumpSpace();
      if !ok {
        return OutOfMemory;
      }
      start := TryCurrent(size, copying);
      where := InZone(start.value);
    }

    lemma ValidNow()
      requires Invariant(zone, Now())
      ensures zone.Valid() && current < |spaces| && spaces[current].Valid()
    {}

    method DetermineEvacuatedSpaces()
      requires Invariant(zone, Now()) && Tracks()
      modifies `evacuated, `occupancy
      ensures Now() == Determined(zone, old(Now())) && Invariant(zone, Now())
    {
      DeterminedKeeps(zone, Now());
      var headroom := AvailableBytes(zone, Now()) * 9 / 10;
      ghost var all := Chosen(Now(), 0, headroom, seq(|occupancy|, _ => false));
      var chosen := seq(|occupancy|, _ => false);
      var max := RegionCount();
      for i := 0 to max
        invariant |chosen| == |occupancy| && Chosen(old(Now()), i, headroom, chosen) == all
      {
        if 0 < occupancy[i] < THRESHOLD {
          if i != current && headroom > spaces[i].UsedSize() {
            headroom := headroom - spaces[i].UsedSize();
            chosen := chosen[i := true];
          }
        }
      }
      evacuated := chosen;
      ResetOccupancy();
    }

    method ResetOccupancy()
      requires current < |occupancy| && next < |occupancy|
      modifies `occupancy
      ensures |occupancy| == |old(occupancy)|
      ensures forall i :: 0 <= i < |occupancy| ==> occupancy[i] == if i == current || i == next then SPACE_SIZE else 0
    {
      occupancy := seq(|occupancy|, _ => 0);
      occupancy := occupancy[current := SPACE_SIZE];
      occupancy := occupancy[next := SPACE_SIZE];
    }

    method UpdateRegionOccupancy(address: Address, bytes: nat)
      requires Invariant(zone, Now()) && Stays(zone, Now(), address)
      modifies `occupancy
      ensures Now() == Counted(zone, old(Now()), address, bytes) && Invariant(zone, Now())
    {
      CountedKeeps(zone, Now(), address, bytes);
      var index := zone.RegionIndexOf(address);
      if index < 0 {
        return;
      }
      occupancy := occupancy[index - 1 := occupancy[index - 1] + bytes];
    }

    /** All spaces but the last are looked at. */
    method RecycleSpaces()
      requires Shaped(Now()) && |spaces| > 0
      modifies `spaces, `emptySpaces
      ensures Now() == Recycled(old(Now()), |old(spaces)| - 1)
    {
      hide Shaped;
      ShapedNow();
      var i := 1;
      while i < |spaces|
        invariant 1 <= i <= |spaces| == |old(spaces)| && |spaces| <= |evacuated| == |occupancy|
        invariant Now() == Recycled(old(Now()), i - 1)
        invariant forall k :: i - 1 <= k < |spaces| ==> spaces[k] == old(spaces)[k]
      {
        var recycle := evacuated[i - 1] || (occupancy[i - 1] == 0 && spaces[i - 1].CommittedSize() > 0);
        if recycle {
          spaces := spaces[i - 1 := spaces[i - 1].Released()];
          emptySpaces := emptySpaces + [i - 1];
        }
        i := i + 1;
      }
    }

    lemma ShapedNow()
      requires Shaped(Now())
      ensures |spaces| <= |evacuated| == |occupancy| && forall k :: 0 <= k < |spaces| ==> spaces[k].Valid()
    {}

    method ReleaseEvacuatedSpaces()
      requires Invariant(zone, Now())
      modifies `spaces, `emptySpaces, `evacuated
      ensures Now() == ReleasedEvacuated(old(Now())) && Invariant(zone, Now())
    {
      hide Invariant, Shaped, Recycled;
      ReleaseKeeps(zone, Now());
      FreeIsNotRecyclable(zone, Now());
      NotEmpty();
      RecycleSpaces();
      evacuated := seq(|evacuated|, _ => false);
    }

    lemma NotEmpty()
      requires Invariant(zone, Now())
      ensures |spaces| > 0
    {}
  }
}
