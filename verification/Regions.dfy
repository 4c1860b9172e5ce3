/** Address arithmetic of the old zone: spaces of 256 KB, each followed by a
    forwarder area of the same size. */
module Regions {
  type Address = int

  const SPACE_SIZE: nat := 0x40000

  /** The address range of the old zone. */
  datatype Zone = Zone(base: Address, limit: Address) {

    ghost predicate Valid() {
      0 <= base < limit && (limit - base) % (2 * SPACE_SIZE) == 0
    }

    /** The 1-based index of the space whose area, or whose forwarder area, holds the address. */
    function IndexOfPointer(address: Address): int
      requires base <= address
    {
      ((address - base) / SPACE_SIZE) / 2 + 1
    }

    /** The region of an object: -1 outside the zone. */
    function RegionIndexOf(address: Address): int {
      if address < base then -1
      else if address >= limit then -1
      else IndexOfPointer(address)
    }

    /** How many spaces fit in the zone. */
    function MaxSpaces(): int
      requires base < limit
    {
      IndexOfPointer(limit - 1)
    }

    /** Where the space of a given 1-based index starts. */
    function SpaceBase(index: int): Address {
      base + (index - 1) * (2 * SPACE_SIZE)
    }
  }

  /** `IndexOfPointer` inverts space placement, for the space and its forwarder area alike. */
  lemma IndexInvertsPlacement(zone: Zone, index: int, address: Address)
    requires zone.Valid() && 1 <= index
    ensures zone.SpaceBase(index) <= address < zone.SpaceBase(index) + 2 * SPACE_SIZE
            <==> zone.base <= address && zone.IndexOfPointer(address) == index
  {
    var offset := address - zone.base;
    if zone.base <= address {
      assert (offset / SPACE_SIZE) / 2 == offset / (2 * SPACE_SIZE);
      assert offset == (offset / (2 * SPACE_SIZE)) * (2 * SPACE_SIZE) + offset % (2 * SPACE_SIZE);
    }
  }

  /** Every address of the zone has a region between 1 and the number of spaces. */
  lemma RegionInRange(zone: Zone, address: Address)
    requires zone.Valid()
    ensures zone.RegionIndexOf(address) == -1 || 1 <= zone.RegionIndexOf(address) <= zone.MaxSpaces()
    ensures zone.MaxSpaces() == (zone.limit - zone.base) / (2 * SPACE_SIZE)
  {
    var offset := address - zone.base;
    var size := zone.limit - zone.base;
    assert (size - 1) / SPACE_SIZE / 2 + 1 == size / (2 * SPACE_SIZE);
    if 0 <= offset < size {
      assert offset / SPACE_SIZE / 2 <= (size - 1) / SPACE_SIZE / 2;
    }
  }

  /** A space and its forwarder area lie within the zone. */
  lemma SpaceInZone(zone: Zone, index: nat)
    requires zone.Valid() && 1 <= index <= zone.MaxSpaces()
    ensures zone.base <= zone.SpaceBase(index) && zone.SpaceBase(index) + 2 * SPACE_SIZE <= zone.limit
  {
    RegionInRange(zone, zone.base);
    var size := zone.limit - zone.base;
    assert size == size / (2 * SPACE_SIZE) * (2 * SPACE_SIZE);
    assert index * (2 * SPACE_SIZE) <= size / (2 * SPACE_SIZE) * (2 * SPACE_SIZE);
  }

  /** Spaces and forwarder areas of 256 KB take turns from the beginning of the zone. */
  lemma SpacesInARow(zone: Zone, index: nat)
    requires 1 <= index
    ensures zone.SpaceBase(1) == zone.base && zone.SpaceBase(index + 1) - zone.SpaceBase(index) == 2 * 262144
    ensures SPACE_SIZE == 262144
  {}

  /** The place after the last space tells how many spaces there are, and the zone is full when
      it is the zone's end. */
  lemma PlaceCountsSpaces(zone: Zone, count: nat)
    requires zone.Valid() && count <= zone.MaxSpaces()
    ensures count > 0 ==> zone.IndexOfPointer(zone.SpaceBase(count + 1) - 1) == count
    ensures zone.SpaceBase(count + 1) == zone.limit <==> count == zone.MaxSpaces()
  {
    RegionInRange(zone, zone.base);
    var size := zone.limit - zone.base;
    assert size == size / (2 * SPACE_SIZE) * (2 * SPACE_SIZE);
    assert zone.SpaceBase(count + 1) == zone.base + count * (2 * SPACE_SIZE);
    if count > 0 {
      IndexInvertsPlacement(zone, count, zone.SpaceBase(count + 1) - 1);
    }
  }

  /** A word. */
  const WORD_SIZE: nat := 8

  /** The cell where an object's forwarder goes: as far into the forwarder area as the object is
      into its space. */
  function ForwarderOf(object_: Address): Address {
    object_ + SPACE_SIZE
  }

  /** An object of a space, by its address and the size of its body, in whole words. */
  predicate InSpace(zone: Zone, index: int, object_: Address, body: nat) {
    && zone.SpaceBase(index) < object_ && object_ + body <= zone.SpaceBase(index) + SPACE_SIZE
    && (object_ - zone.SpaceBase(index)) % WORD_SIZE == 0 && body % WORD_SIZE == 0
  }

  /** An object's forwarder is inside its space's own forwarder area exactly when the object is
      not at the very end of the space; so always when its body is not empty. */
  lemma ForwarderInArea(zone: Zone, index: int, object_: Address, body: nat)
    requires InSpace(zone, index, object_, body)
    ensures zone.SpaceBase(index) + SPACE_SIZE <= ForwarderOf(object_)
    ensures ForwarderOf(object_) + WORD_SIZE <= zone.SpaceBase(index + 1)
      <==> object_ != zone.SpaceBase(index) + SPACE_SIZE
    ensures body != 0 ==> ForwarderOf(object_) + WORD_SIZE <= zone.SpaceBase(index + 1)
    ensures object_ == zone.SpaceBase(index) + SPACE_SIZE ==> ForwarderOf(object_) == zone.SpaceBase(index + 1)
  {
    var offset := object_ - zone.SpaceBase(index);
    assert offset == WORD_SIZE * (offset / WORD_SIZE);
    assert zone.SpaceBase(index + 1) == zone.SpaceBase(index) + 2 * SPACE_SIZE;
    if offset < SPACE_SIZE {
      assert offset / WORD_SIZE < SPACE_SIZE / WORD_SIZE;
    }
  }

  /** The forwarders of two objects with bodies do not overlap, and neither is in any space. */
  lemma ForwardersApart(zone: Zone, i: int, a: Address, n: nat, j: int, b: Address, m: nat)
    requires InSpace(zone, i, a, n) && InSpace(zone, j, b, m) && n != 0 && m != 0 && (a + n <= b || b + m <= a)
    ensures ForwarderOf(a) + WORD_SIZE <= ForwarderOf(b) || ForwarderOf(b) + WORD_SIZE <= ForwarderOf(a)
    ensures forall k :: k <= i ==> zone.SpaceBase(k) + SPACE_SIZE <= ForwarderOf(a)
    ensures forall k :: k > i ==> ForwarderOf(a) + WORD_SIZE <= zone.SpaceBase(k)
  {
    ForwarderInArea(zone, i, a, n);
    forall k | k > i ensures ForwarderOf(a) + WORD_SIZE <= zone.SpaceBase(k) {
      assert zone.SpaceBase(k) >= zone.SpaceBase(i + 1);
    }
  }
}
