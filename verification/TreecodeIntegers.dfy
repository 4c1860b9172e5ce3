/** Treecode integers: one byte for -127 to 127, and otherwise 128 and eight bytes, the highest
    first. */
module TreecodeIntegers {

  type Byte = b: int | 0 <= b < 256

  type Int64 = v: int | -0x8000_0000_0000_0000 <= v < 0x8000_0000_0000_0000

  const WORD := 0x1_0000_0000_0000_0000

  const BIG: Byte := 0x80

  datatype Parsed<+T> = Failed | Done(value: T, rest: seq<Byte>)

  /** An arithmetic shift to the right by whole bytes. */
  function Shifted(v: int, bytes: nat): int {
    if bytes == 0 then v else Shifted(v, bytes - 1) / 256
  }

  /** The low bytes of a number, the highest first. */
  function BigEndian(v: int, count: nat): (bs: seq<Byte>)
    ensures |bs| == count
  {
    if count == 0 then [] else [Shifted(v, count - 1) % 256] + BigEndian(v, count - 1)
  }

  function FromBigEndian(bs: seq<Byte>): nat {
    if bs == [] then 0 else FromBigEndian(bs[..|bs| - 1]) * 256 + bs[|bs| - 1]
  }

  /** A number of more than 64 bits would lose the others. */
  function IntegerBytes(v: int): (bs: seq<Byte>)
    ensures bs != []
  {
    if v > 127 || v < -127 then [BIG] + BigEndian(v, 8) else [if v >= 0 then v else v + 0x100]
  }

  /** The word as a signed number. */
  function Signed(word: nat): Int64
    requires word < WORD
  {
    if word < WORD / 2 then word else word - WORD
  }

  function ParseInteger(bs: seq<Byte>): (p: Parsed<Int64>)
    ensures p.Done? ==> |p.rest| < |bs|
  {
    if bs == [] then Failed
    else if bs[0] == BIG then
      if |bs| < 9 then Failed
      else
        WordBound(bs[1..9]);
        Done(Signed(FromBigEndian(bs[1..9])), bs[9..])
    else
      var b: int := bs[0];
      Done(if b <= 127 then b else b - 256, bs[1..])
  }

  function Power(count: nat): nat {
    if count == 0 then 1 else Power(count - 1) * 256
  }

  lemma {:induction false} BigEndianBound(bs: seq<Byte>)
    ensures FromBigEndian(bs) < Power(|bs|)
  {
    if bs != [] {
      BigEndianBound(bs[..|bs| - 1]);
    }
  }

  lemma WordBound(bs: seq<Byte>)
    requires |bs| == 8
    ensures FromBigEndian(bs) < WORD
  {
    BigEndianBound(bs);
    assert Power(4) == 0x1_0000_0000;
    assert Power(8) == Power(4) * 0x1_0000_0000;
  }

  /** Bytes can also be taken from the low end. */
  lemma {:induction false} BigEndianLast(v: int, count: nat)
    requires count > 0
    ensures BigEndian(v, count) == BigEndian(v / 256, count - 1) + [v % 256]
  {
    if count > 1 {
      BigEndianLast(v, count - 1);
      ShiftedFirst(v, count - 1);
    }
  }

  lemma {:induction false} ShiftedFirst(v: int, bytes: nat)
    requires bytes > 0
    ensures Shifted(v, bytes) == Shifted(v / 256, bytes - 1)
  {
    if bytes > 1 {
      ShiftedFirst(v, bytes - 1);
    }
  }

  /** The bytes of a number, negative or not, are those of the number modulo a power of 256. */
  lemma {:induction false} BigEndianInverts(v: int, count: nat, u: nat, m: int)
    requires u < Power(count) && v == u + m * Power(count)
    ensures FromBigEndian(BigEndian(v, count)) == u
    decreases count
  {
    if count > 0 {
      BigEndianLast(v, count);
      var bs := BigEndian(v, count);
      assert bs[..|bs| - 1] == BigEndian(v / 256, count - 1);
      var p := Power(count - 1);
      assert v == u + 256 * (m * p);
      assert v / 256 == u / 256 + m * p && v % 256 == u % 256;
      BigEndianInverts(v / 256, count - 1, u / 256, m);
    }
  }

  /** Every 64-bit integer is read back, and nothing after it is touched. */
  lemma IntegerRoundTrip(v: Int64, rest: seq<Byte>)
    ensures ParseInteger(IntegerBytes(v) + rest) == Done(v, rest)
  {
    var bs := IntegerBytes(v) + rest;
    if v > 127 || v < -127 {
      assert bs[1..9] == BigEndian(v, 8) && bs[9..] == rest;
      assert Power(4) == 0x1_0000_0000;
      assert Power(8) == Power(4) * 0x1_0000_0000;
      BigEndianInverts(v, 8, if v >= 0 then v else v + WORD, if v >= 0 then 0 else -1);
    } else {
      assert bs[1..] == rest;
    }
  }

  /** A number written as a raw byte is read back as an integer, from that byte alone, exactly
      when it is at most 127. */
  lemma RawByteAsInteger(v: nat, rest: seq<Byte>)
    ensures ParseInteger([v % 256] + rest) == Done(v, rest) <==> v <= 127
  {
    var bs := [v % 256] + rest;
    assert bs[1..] == rest;
    if v % 256 == BIG {
      assert |bs| >= 9 ==> |bs[9..]| < |rest|;
    }
  }
}
