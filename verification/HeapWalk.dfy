/** Objects laid out one after the other in a space, and the walk that finds them again from
    their headers. */
module HeapWalk {

  type Byte = b: int | 0 <= b < 256

  datatype Option<+T> = None | Some(value: T)

  const WORD_SIZE: nat := 8
  const MAX_SMALL_SIZE: nat := 0xFF

  const IS_BYTES: Byte := 0x01
  const IS_ARRAYED: Byte := 0x02
  const IS_SMALL: Byte := 0x80

  function Flags(small: bool, bytes: bool): Byte {
    (if bytes then IS_BYTES + IS_ARRAYED else 0) + if small then IS_SMALL else 0
  }

  /** Four bytes, the lowest first. */
  function LittleEndian(n: nat): (bs: seq<Byte>)
    ensures |bs| == 4
  {
    [n % 256, n / 256 % 256, n / 65536 % 256, n / 16777216 % 256]
  }

  /** Hash, size, flags and behavior; a large object's size comes before, in a word of its own. */
  function HeaderBytes(size: nat, bytes: bool): (bs: seq<Byte>)
    ensures |bs| == HeaderSize(size)
  {
    if size <= MAX_SMALL_SIZE then [0, 0, size, Flags(true, bytes), 0, 0, 0, 0]
    else LittleEndian(size) + [0, 0, 0, 0] + [0, 0, 0, Flags(false, bytes), 0, 0, 0, 0]
  }

  function HeaderSize(size: nat): nat {
    if size <= MAX_SMALL_SIZE then 8 else 16
  }

  /** Bytes take whole words. */
  function BodySize(size: nat, bytes: bool): nat {
    if bytes then (size + WORD_SIZE - 1) / WORD_SIZE * WORD_SIZE else size * WORD_SIZE
  }

  /** A body takes a word for each slot, and for bytes the fewest words that hold them. */
  lemma BodySizeExactly(size: nat)
    ensures BodySize(size, false) == 8 * size
    ensures BodySize(size, true) % 8 == 0 && size <= BodySize(size, true) < size + 8
  {}

  /** The headers of a small and of a large object, of slots and of bytes. */
  lemma HeaderFormat()
    ensures HeaderBytes(3, false) == [0, 0, 3, 0x80, 0, 0, 0, 0]
    ensures HeaderBytes(255, true) == [0, 0, 255, 0x83, 0, 0, 0, 0]
    ensures HeaderBytes(256, false) == [0, 1, 0, 0, 0, 0, 0, 0, 0, 0, 0, 0, 0, 0, 0, 0]
    ensures HeaderBytes(65537, true) == [1, 0, 1, 0, 0, 0, 0, 0, 0, 0, 0, 3, 0, 0, 0, 0]
  {}

  // ---- reading headers

  predicate TestFlag(flags: Byte, flag: Byte)
    requires flag == IS_BYTES || flag == IS_SMALL
  {
    if flag == IS_SMALL then flags >= 0x80 else flags % 2 == 1
  }

  /** The object whose header starts somewhere: the byte where a small header has its flags says
      which kind of header it is. */
  function ObjectAt(memory: seq<Byte>, header: nat): nat
    requires header + 8 <= |memory|
  {
    if TestFlag(memory[header + 3], IS_SMALL) then header + 8 else header + 16
  }

  predicate HasHeader(memory: seq<Byte>, object_: nat) {
    8 <= object_ <= |memory| && (TestFlag(memory[object_ - 5], IS_SMALL) || 16 <= object_)
  }

  function SizeOf(memory: seq<Byte>, object_: nat): nat
    requires HasHeader(memory, object_)
  {
    if TestFlag(memory[object_ - 5], IS_SMALL) then memory[object_ - 6]
    else
      var (a: nat, b: nat, c: nat, d: nat) := (memory[object_ - 16], memory[object_ - 15], memory[object_ - 14],
        memory[object_ - 13]);
      a + b * 256 + c * 65536 + d * 16777216
  }

  function NextHeader(memory: seq<Byte>, object_: nat): nat
    requires HasHeader(memory, object_)
  {
    object_ + BodySize(SizeOf(memory, object_), TestFlag(memory[object_ - 5], IS_BYTES))
  }

  /** The objects from a header on, if the last one ends where the space does. */
  function Objects(memory: seq<Byte>, header: nat, end: nat): Option<seq<nat>>
    decreases end - header
  {
    if header == end then Some([])
    else if header > end || header + 8 > end || end > |memory| then None
    else
      var object_ := ObjectAt(memory, header);
      if object_ > end || !HasHeader(memory, object_) || NextHeader(memory, object_) > end then None
      else
        match Objects(memory, NextHeader(memory, object_), end)
        case None => None
        case Some(others) => Some([object_] + others)
  }

  /** A header is read back as it was written: unless its size takes all of 32 bits. */
  lemma HeaderReadBack(memory: seq<Byte>, at: nat, size: nat, bytes: bool)
    requires size < 0x1_0000_0000 && at + HeaderSize(size) <= |memory|
    requires memory[at..at + HeaderSize(size)] == HeaderBytes(size, bytes)
    ensures var o := at + HeaderSize(size);
      && (ObjectAt(memory, at) == o <==> size < 0x8000_0000)
      && HasHeader(memory, o) && SizeOf(memory, o) == size && NextHeader(memory, o) == o + BodySize(size, bytes)
  {
    var header := memory[at..at + HeaderSize(size)];
    assert forall i :: 0 <= i < |header| ==> header[i] == memory[at + i];
    if size > MAX_SMALL_SIZE {
      FourBytes(size);
      assert memory[at + 11] == header[11] == Flags(false, bytes);
    } else {
      assert memory[at + 3] == header[3] == Flags(true, bytes);
    }
  }

  lemma FourBytes(n: nat)
    requires n < 0x1_0000_0000
    ensures n % 256 + n / 256 % 256 * 256 + n / 65536 % 256 * 65536 + n / 16777216 % 256 * 16777216 == n
    ensures n / 16777216 % 256 >= 0x80 <==> n >= 0x8000_0000
  {
    var a := n / 256;
    var b := a / 256;
    assert n / 65536 == b && n / 16777216 == b / 256;
  }

  lemma SameHeader(memory: seq<Byte>, other: seq<Byte>, header: nat, end: nat)
    requires header + 8 <= end <= |memory| && end <= |other| && memory[..end] == other[..end]
    ensures ObjectAt(memory, header) == ObjectAt(other, header)
    ensures var o := ObjectAt(memory, header); o <= end ==>
      HasHeader(memory, o) == HasHeader(other, o)
      && (HasHeader(memory, o) ==> NextHeader(memory, o) == NextHeader(other, o))
  {
    assert forall i :: 0 <= i < end ==> memory[i] == memory[..end][i] && other[i] == other[..end][i];
  }

  /** The walk only looks at what is before its end. */
  lemma {:induction false} SameObjects(memory: seq<Byte>, other: seq<Byte>, header: nat, end: nat)
    requires end <= |memory| && end <= |other| && memory[..end] == other[..end]
    ensures Objects(memory, header, end) == Objects(other, header, end)
    decreases end - header
  {
    if header + 8 <= end && header < end {
      SameHeader(memory, other, header, end);
      hide ObjectAt, HasHeader, NextHeader;
      var o := ObjectAt(memory, header);
      if o <= end && HasHeader(memory, o) && NextHeader(memory, o) <= end {
        SameObjects(memory, other, NextHeader(memory, o), end);
      }
    }
  }

  /** One more object at the end. */
  lemma {:induction false} OneMore(memory: seq<Byte>, header: nat, middle: nat, end: nat)
    requires middle + 8 <= end <= |memory| && Objects(memory, header, middle).Some?
    requires var o := ObjectAt(memory, middle); o <= end && HasHeader(memory, o) && NextHeader(memory, o) == end
    ensures Objects(memory, header, end) == Some(Objects(memory, header, middle).value + [ObjectAt(memory, middle)])
    decreases middle - header
  {
    if header == middle {
      var o := ObjectAt(memory, middle);
      assert Objects(memory, end, end) == Some([]);
      assert Objects(memory, header, end) == Some([o] + []);
      assert [o] + [] == [] + [o];
    } else {
      var o := ObjectAt(memory, header);
      OneMore(memory, NextHeader(memory, o), middle, end);
      var others := Objects(memory, NextHeader(memory, o), middle).value;
      assert [o] + others + [ObjectAt(memory, middle)] == [o] + (others + [ObjectAt(memory, middle)]);
    }
  }

  lemma FirstObject(memory: seq<Byte>, header: nat, end: nat)
    requires header < end && Objects(memory, header, end).Some?
    ensures header + 8 <= end <= |memory|
    ensures var o := ObjectAt(memory, header);
      && HasHeader(memory, o) && header < NextHeader(memory, o) <= end
      && Objects(memory, NextHeader(memory, o), end).Some?
      && Objects(memory, header, end).value == [o] + Objects(memory, NextHeader(memory, o), end).value
  {}

  lemma NoObject(memory: seq<Byte>, end: nat)
    ensures Objects(memory, end, end) == Some([])
  {}

  // ---- a space

  class Space {
    const memory: array<Byte>
    var next: nat

    constructor (size: nat)
      ensures fresh(memory) && memory.Length == size && Valid() && Contents() == []
    {
      memory := new Byte[size](_ => 0);
      next := 0;
    }

    /** The objects of the space end where allocation goes on. */
    ghost predicate Valid()
      reads this, memory
    {
      next <= memory.Length && Objects(memory[..], 0, next).Some?
    }

    ghost function Contents(): seq<nat>
      reads this, memory
      requires Valid()
    {
      Objects(memory[..], 0, next).value
    }

    method AllocateIfPossible(size: nat) returns (start: Option<nat>)
      requires next <= memory.Length
      modifies `next
      ensures start.Some? <==> old(next) + size < memory.Length
      ensures if start.Some? then start.value == old(next) && next == old(next) + size else next == old(next)
    {
      start := None;
      if next + size < memory.Length {
        start := Some(next);
        next := next + size;
      }
    }

    method Write(at: nat, bs: seq<Byte>)
      requires at + |bs| <= memory.Length
      modifies memory
      ensures memory[..] == old(memory[..at]) + bs + old(memory[at + |bs|..])
    {
      for i := 0 to |bs|
        invariant memory[..] == old(memory[..at]) + bs[..i] + old(memory[at + i..])
      {
        memory[at + i] := bs[i];
      }
    }

    method Fill(from: nat, to: nat, word: seq<Byte>)
      requires from <= to <= memory.Length && |word| == WORD_SIZE
      modifies memory
      ensures memory[..from] == old(memory[..from]) && memory[to..] == old(memory[to..])
      ensures forall i :: from <= i < to ==> memory[i] == word[(i - from) % WORD_SIZE]
    {
      for i := from to to
        invariant memory[..from] == old(memory[..from]) && memory[i..] == old(memory[i..])
        invariant forall k :: from <= k < i ==> memory[k] == word[(k - from) % WORD_SIZE]
      {
        memory[i] := word[(i - from) % WORD_SIZE];
      }
    }

    /** A new object after the others: its header, and its body filled with nil or zeros. */
    method Allocate(size: nat, bytes: bool, filler: seq<Byte>) returns (object_: Option<nat>)
      requires Valid() && size < 0x8000_0000 && |filler| == WORD_SIZE
      modifies this, memory
      ensures Valid()
      ensures object_.Some? <==> old(next) + HeaderSize(size) + BodySize(size, bytes) < memory.Length
      ensures object_.None? ==> Contents() == old(Contents()) && next == old(next)
      ensures object_.Some? ==>
        && object_.value == old(next) + HeaderSize(size) && next == object_.value + BodySize(size, bytes)
        && Contents() == old(Contents()) + [object_.value]
        && HasHeader(memory[..], object_.value) && SizeOf(memory[..], object_.value) == size
        && memory[..old(next)] == old(memory[..next])
    {
      hide Objects, ObjectAt, NextHeader, SizeOf, HasHeader, HeaderBytes;
      object_ := None;
      ghost var before := memory[..];
      var start := AllocateIfPossible(HeaderSize(size) + BodySize(size, bytes));
      if start.Some? {
        var o := start.value + HeaderSize(size);
        Write(start.value, HeaderBytes(size, bytes));
        Fill(o, next, filler);
        ghost var after := memory[..];
        assert after[..start.value] == before[..start.value];
        assert after[start.value..o] == HeaderBytes(size, bytes);
        HeaderReadBack(after, start.value, size, bytes);
        SameObjects(before, after, 0, start.value);
        OneMore(after, 0, start.value, next);
        object_ := Some(o);
      }
    }

    /** The walk visits the space's objects, each once, in the order they were allocated, and ends
        exactly where allocation goes on. */
    method ObjectsDo() returns (visited: seq<nat>, end: nat)
      requires Valid()
      ensures visited == Contents() && end == next
    {
      hide Objects, ObjectAt, NextHeader, HasHeader;
      visited := [];
      var header := 0;
      while header < next
        invariant Objects(memory[..], header, next).Some? && header <= next
        invariant Contents() == visited + Objects(memory[..], header, next).value
        decreases next - header
      {
        FirstObject(memory[..], header, next);
        var object_ := ObjectAt(memory[..], header);
        var following := NextHeader(memory[..], object_);
        header := following;
        visited := visited + [object_];
      }
      NoObject(memory[..], next);
      end := header;
    }
  }
}
