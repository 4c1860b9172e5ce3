/** Integer literals: from digits to a small integer or to the bytes of a large one, and back to
    text in radix 16. */
module LiteralIntegers {

  type Byte = b: int | 0 <= b < 256

  /** The largest small integer. */
  const SMI_MAX: nat := 0x3FFF_FFFF_FFFF_FFFF

  datatype Literal = Small(value: int) | Large(bytes: seq<Byte>, negative: bool)

  /** The value of bytes, the lowest first. */
  function Value(bs: seq<Byte>): nat {
    if bs == [] then 0 else bs[0] + 256 * Value(bs[1..])
  }

  function IsDigit(c: char): bool {
    '0' <= c <= '9' || 'a' <= c <= 'z' || 'A' <= c <= 'Z'
  }

  function Digit(c: char): nat
    requires IsDigit(c)
  {
    if '0' <= c <= '9' then c as nat - '0' as nat
    else if 'a' <= c <= 'z' then c as nat - 'a' as nat + 10
    else c as nat - 'A' as nat + 10
  }

  /** The digits are ten figures and the letters after them, small or capital. */
  lemma DigitsAre(c: char)
    ensures Digit('0') == 0 && Digit('9') == 9
    ensures Digit('a') == Digit('A') == 10 && Digit('z') == Digit('Z') == 35
    ensures IsDigit(c) && c != '9' && c != 'z' && c != 'Z' ==>
      IsDigit((c as int + 1) as char) && Digit((c as int + 1) as char) == Digit(c) + 1
    ensures IsDigit(c) && c != '0' && c != 'a' && c != 'A' ==> IsDigit((c as int - 1) as char)
    ensures c in "/:@[`{" ==> !IsDigit(c)
  {}

  predicate AreDigits(base: nat, digits: string) {
    forall c :: c in digits ==> IsDigit(c) && Digit(c) < base
  }

  /** What the digits denote. */
  function Number(base: nat, digits: string): nat
    requires AreDigits(base, digits)
  {
    if digits == "" then 0
    else
      assert AreDigits(base, digits[..|digits| - 1]) by { Fewer(base, digits); }
      Number(base, digits[..|digits| - 1]) * base + Digit(digits[|digits| - 1])
  }

  lemma Fewer(base: nat, digits: string)
    requires AreDigits(base, digits) && digits != ""
    ensures AreDigits(base, digits[..|digits| - 1]) && IsDigit(digits[|digits| - 1])
    ensures Digit(digits[|digits| - 1]) < base
  {
    assert digits[|digits| - 1] in digits;
    assert forall c :: c in digits[..|digits| - 1] ==> c in digits;
  }

  function Power(n: nat): (p: nat)
    ensures p > 0
  {
    if n == 0 then 1 else 256 * Power(n - 1)
  }

  lemma {:induction false} ValueOfAppend(bs: seq<Byte>, b: Byte)
    ensures Value(bs + [b]) == Value(bs) + Power(|bs|) * b
  {
    if bs != [] {
      ValueOfAppend(bs[1..], b);
      assert (bs + [b])[1..] == bs[1..] + [b];
      assert 256 * (Power(|bs| - 1) * b) == Power(|bs|) * b;
    } else {
      assert ([] + [b])[1..] == [];
    }
  }

  lemma {:induction false} ValueBound(bs: seq<Byte>)
    ensures Value(bs) < Power(|bs|)
  {
    if bs != [] {
      ValueBound(bs[1..]);
    }
  }

  // ---- from digits to bytes

  /** One more digit: every byte times the base, with a carry that stays below the base. */
  method Shift(bytes: seq<Byte>, base: nat, d: nat) returns (r: seq<Byte>)
    requires 2 <= base <= 36 && d < base
    ensures Value(r) == Value(bytes) * base + d
  {
    hide Value, Power;
    var carry: nat := d;
    r := [];
    NoBytes();
    for i := 0 to |bytes|
      invariant |r| == i && carry < base
      invariant Value(r) + Power(i) * carry == Value(bytes[..i]) * base + d
    {
      CarryBelow(bytes[i], base, carry);
      var prod := bytes[i] * base + carry;
      ShiftedByte(r, bytes[..i], bytes[i], base, d, carry, prod);
      assert bytes[..i + 1] == bytes[..i] + [bytes[i]];
      r := r + [prod % 256];
      carry := prod / 256;
    }
    assert bytes[..|bytes|] == bytes;
    while carry > 0
      invariant Value(r) + Power(|r|) * carry == Value(bytes) * base + d
    {
      CarriedByte(r, carry);
      r := r + [carry % 256];
      carry := carry / 256;
    }
    assert Power(|r|) * carry == 0;
  }

  lemma NoBytes()
    ensures Value([]) == 0 && Power(0) == 1
  {}

  lemma CarryBelow(b: Byte, base: nat, carry: nat)
    requires carry < base
    ensures (b * base + carry) / 256 < base
  {
    assert b * base <= 255 * base;
  }

  lemma ShiftedByte(r: seq<Byte>, done: seq<Byte>, b: Byte, base: nat, d: nat, carry: nat, prod: nat)
    requires |r| == |done| && prod == b * base + carry
    requires Value(r) + Power(|r|) * carry == Value(done) * base + d
    ensures Value(r + [prod % 256]) + Power(|r| + 1) * (prod / 256) == Value(done + [b]) * base + d
  {
    hide Value;
    ValueOfAppend(r, prod % 256);
    ValueOfAppend(done, b);
    var p := Power(|r|);
    OneByte(Value(r), p, carry, Value(done), b, base, d, prod);
    Same(Power(|r| + 1), 256 * p, prod / 256);
    Same(Value(done + [b]), Value(done) + p * b, base);
    hide Power;
  }

  lemma CarriedByte(r: seq<Byte>, carry: nat)
    ensures Value(r + [carry % 256]) + Power(|r| + 1) * (carry / 256) == Value(r) + Power(|r|) * carry
  {
    hide Value;
    ValueOfAppend(r, carry % 256);
    assert carry == 256 * (carry / 256) + carry % 256;
    Distribute(Power(|r|), carry / 256, carry % 256);
  }

  lemma Same(x: nat, y: nat, factor: nat)
    requires x == y
    ensures x * factor == y * factor
  {}

  lemma OneByte(v: nat, p: nat, carry: nat, w: nat, b: nat, base: nat, d: nat, prod: nat)
    requires v + p * carry == w * base + d && prod == b * base + carry
    ensures v + p * (prod % 256) + 256 * p * (prod / 256) == (w + p * b) * base + d
  {
    Distribute(p, prod / 256, prod % 256);
    assert prod == 256 * (prod / 256) + prod % 256;
    assert p * prod == p * (b * base) + p * carry;
    assert p * (b * base) == (p * b) * base;
    assert (w + p * b) * base == w * base + (p * b) * base;
  }

  lemma Distribute(p: nat, q: nat, r: nat)
    ensures p * (256 * q + r) == 256 * p * q + p * r
  {}

  method BytesOf(base: nat, digits: string) returns (bytes: seq<Byte>)
    requires 2 <= base <= 36 && AreDigits(base, digits)
    ensures Value(bytes) == Number(base, digits)
  {
    bytes := [0];
    assert Value([0][1..]) == 0;
    assert digits[..0] == "";
    for i := 0 to |digits|
      invariant AreDigits(base, digits[..i]) && Value(bytes) == Number(base, digits[..i])
    {
      assert digits[i] in digits;
      var d := Digit(digits[i]);
      bytes := Shift(bytes, base, d);
      assert forall c :: c in digits[..i + 1] ==> c in digits;
      assert digits[..i + 1][..i] == digits[..i];
    }
    assert digits[..|digits|] == digits;
  }

  // ---- the shortest bytes

  lemma {:induction false} ValueOfPadded(bs: seq<Byte>)
    ensures Value(bs + [0]) == Value(bs)
  {
    ValueOfAppend(bs, 0);
  }

  /** Without zeros at the high end, all the same one byte at least. */
  method Stripped(bytes: seq<Byte>) returns (r: seq<Byte>)
    ensures Value(r) == Value(bytes)
    ensures |r| > 1 ==> r[|r| - 1] != 0
  {
    r := bytes;
    while |r| > 1 && r[|r| - 1] == 0
      invariant Value(r) == Value(bytes)
    {
      assert r[..|r| - 1] + [0] == r;
      ValueOfPadded(r[..|r| - 1]);
      r := r[..|r| - 1];
    }
  }

  /** The bytes of a large integer: an even number of them, no pair of zeros at the end. */
  predicate Canonical(bs: seq<Byte>) {
    |bs| % 2 == 0 && |bs| >= 2 && (bs[|bs| - 1] != 0 || bs[|bs| - 2] != 0)
  }

  lemma {:induction false} HighByte(bs: seq<Byte>)
    requires bs != [] && bs[|bs| - 1] != 0
    ensures Value(bs) >= Power(|bs| - 1)
  {
    var front, high := bs[..|bs| - 1], bs[|bs| - 1];
    assert front + [high] == bs;
    ValueOfAppend(front, high);
    assert Power(|front|) * high >= Power(|front|);
  }

  /** The digits of an unsigned literal as a small integer if it fits, otherwise as bytes. */
  method FromIntegerDigits(base: nat, digits: string, negative: bool) returns (r: Literal)
    requires 2 <= base <= 36 && AreDigits(base, digits)
    ensures var (n: int, limit) := (Number(base, digits), if negative then SMI_MAX + 1 else SMI_MAX);
      && (r.Small? <==> n <= limit)
      && (r.Small? ==> r.value == if negative then -n else n)
      && (r.Large? ==> Value(r.bytes) == n && Canonical(r.bytes) && r.negative == negative)
  {
    var bytes := BytesOf(base, digits);
    bytes := Stripped(bytes);
    if |bytes| > 8 {
      HighByte(bytes);
      PowerOfEight();
      PowerGrows(8, |bytes| - 1);
    } else {
      var u := Value(bytes);
      if u <= if negative then SMI_MAX + 1 else SMI_MAX {
        var n: int := u;
        return Small(if negative then -n else n);
      }
    }
    SmallValue(bytes);
    if |bytes| % 2 != 0 {
      ValueOfPadded(bytes);
      bytes := bytes + [0];
    }
    r := Large(bytes, negative);
  }

  lemma PowerOfEight()
    ensures Power(8) == 0x1_0000_0000_0000_0000
  {
    assert Power(4) == 0x1_0000_0000;
    assert Power(8) == 256 * (256 * (256 * (256 * Power(4))));
  }

  lemma {:induction false} PowerGrows(a: nat, b: nat)
    requires a <= b
    ensures Power(a) <= Power(b)
    decreases b
  {
    if a < b {
      PowerGrows(a, b - 1);
    }
  }

  lemma SmallValue(bs: seq<Byte>)
    ensures |bs| <= 1 ==> Value(bs) < 256
  {
    if |bs| == 1 {
      assert bs[1..] == [];
    }
  }

  // ---- back to text

  const HEX: string := "0123456789ABCDEF"

  lemma HexDigits(n: nat)
    requires n < 16
    ensures IsDigit(HEX[n]) && Digit(HEX[n]) == n && HEX[n] != 'r' && HEX[n] != 'x' && HEX[n] != 'X'
  {}

  lemma NumberOfAppend(base: nat, digits: string, c: char)
    requires AreDigits(base, digits) && IsDigit(c) && Digit(c) < base
    ensures AreDigits(base, digits + [c]) && Number(base, digits + [c]) == Number(base, digits) * base + Digit(c)
  {
    assert (digits + [c])[..|digits|] == digits;
  }

  /** Hexadecimal digits that the literal syntax does not take for something else. */
  predicate IsHex(digits: string) {
    AreDigits(16, digits) && forall c :: c in digits ==> c != 'r' && c != 'R' && c != 'x' && c != 'X'
  }

  method PutDigit(text: string, n: nat) returns (r: string)
    requires IsHex(text) && n < 16
    ensures IsHex(r) && |r| == |text| + 1 && r[..|text|] == text && Number(16, r) == Number(16, text) * 16 + n
  {
    HexDigits(n);
    NumberOfAppend(16, text, HEX[n]);
    r := text + [HEX[n]];
  }

  /** The digits of a large integer, the highest first, without zeros before them. */
  method PrintDigits(bytes: seq<Byte>) returns (s: string)
    ensures s != "" && IsHex(s) && Number(16, s) == Value(bytes)
  {
    s := "";
    var i := |bytes|;
    assert bytes[i..] == [];
    while i > 0
      invariant 0 <= i <= |bytes| && IsHex(s)
      invariant Number(16, s) == Value(bytes[i..]) && (s == "" ==> Value(bytes[i..]) == 0)
    {
      i := i - 1;
      var b := bytes[i];
      assert bytes[i..][0] == b && bytes[i..][1..] == bytes[i + 1..];
      if s != "" || b != 0 {
        if s != "" || b >= 0x10 {
          s := PutDigit(s, b / 16);
        }
        s := PutDigit(s, b % 16);
        assert b == b / 16 * 16 + b % 16;
      }
    }
    assert bytes[0..] == bytes;
    if s == "" {
      s := PutDigit(s, 0);
    }
  }

  method PrintLargeInteger(bytes: seq<Byte>, negative: bool) returns (s: string)
    ensures |s| > if negative then 4 else 3
    ensures s[..if negative then 4 else 3] == if negative then "-16r" else "16r"
    ensures var digits := s[if negative then 4 else 3..];
      IsHex(digits) && Number(16, digits) == Value(bytes)
  {
    var digits := PrintDigits(bytes);
    s := (if negative then "-16r" else "16r") + digits;
    assert s[if negative then 4 else 3..] == digits;
  }

  // ---- and parsing it

  datatype Option<+T> = None | Some(value: T)

  function Find(v: string, c: char): (i: nat)
    ensures i <= |v| && c !in v[..i] && (i < |v| ==> v[i] == c)
  {
    if v == "" then 0 else if v[0] == c then 0 else
    var i := Find(v[1..], c) + 1;
    assert v[..i] == [v[0]] + v[1..][..i - 1];
    i
  }

  /** The base and the digits of a literal: decimal, after 0x, or after a radix and r. */
  function Split(v: string): Option<(nat, string)> {
    if |v| > 2 && v[0] == '0' && (v[1] == 'x' || v[1] == 'X') then Some((16, v[2..]))
    else
      var lower := Find(v, 'r');
      var at := if lower == |v| then Find(v, 'R') else lower;
      if at == |v| then Some((10, v))
      else if at == 0 || !AreDigits(10, v[..at]) then None
      else if !(2 <= Number(10, v[..at]) <= 36) then None
      else Some((Number(10, v[..at]), v[at + 1..]))
  }

  /** A literal without a sign denotes a number: small exactly when it fits. */
  predicate Means(r: Literal, n: nat) {
    && (r.Small? <==> n <= SMI_MAX)
    && (r.Small? ==> r.value == n)
    && (r.Large? ==> Value(r.bytes) == n && Canonical(r.bytes) && !r.negative)
  }

  /** None for a radix out of range, or something that is not a digit. */
  method ParseIntegerString(v: string) returns (r: Option<Literal>)
    ensures r.Some? <==> Split(v).Some? && AreDigits(Split(v).value.0, Split(v).value.1)
    ensures r.Some? ==> Means(r.value, Number(Split(v).value.0, Split(v).value.1))
  {
    r := None;
    var parts := Split(v);
    if parts.Some? && AreDigits(parts.value.0, parts.value.1) {
      var n := FromIntegerDigits(parts.value.0, parts.value.1, false);
      r := Some(n);
    }
  }

  lemma {:induction false} NotFound(v: string, c: char)
    requires c !in v
    ensures Find(v, c) == |v|
  {
    if v != "" {
      assert forall x :: x in v[1..] ==> x in v;
      NotFound(v[1..], c);
    }
  }

  /** The three forms a literal has. */
  lemma Forms(digits: string)
    ensures IsHex(digits) ==> Split("16r" + digits) == Some((16, digits))
    ensures digits != "" ==> Split("0x" + digits) == Split("0X" + digits) == Some((16, digits))
    ensures (forall c :: c in digits ==> '0' <= c <= '9') ==> Split(digits) == Some((10, digits))
  {
    var v := "16r" + digits;
    assert v[0] == '1' && v[1] == '6' && v[2] == 'r' && v[3..] == digits;
    RadixAt(v);
    assert ("0x" + digits)[2..] == digits && ("0X" + digits)[2..] == digits;
    if forall c :: c in digits ==> '0' <= c <= '9' {
      NotFound(digits, 'r');
      NotFound(digits, 'R');
      assert |digits| > 2 ==> digits[1] in digits;
    }
  }

  /** A radix in decimal and the letter r, small or capital: the base if it is from 2 to 36, and no
      number otherwise. */
  lemma RadixForm(radix: string, c: char, digits: string)
    requires radix != "" && (forall d :: d in radix ==> '0' <= d <= '9')
    requires c == 'r' || (c == 'R' && 'r' !in digits)
    ensures AreDigits(10, radix)
    ensures var base := Number(10, radix);
      Split(radix + [c] + digits) == if 2 <= base <= 36 then Some((base, digits)) else None
  {
    var v := radix + [c] + digits;
    assert v[..|radix|] == radix && v[|radix|] == c && v[|radix| + 1..] == digits;
    assert forall i :: 0 <= i < |radix| ==> v[i] == radix[i] && radix[i] in radix;
    FindAfter(radix, c, digits, c);
    if c == 'R' {
      FindAfter(radix, c, digits, 'r');
      NotFound(digits, 'r');
    }
  }

  /** Nothing is found before the place where it can be. */
  lemma {:induction false} FindAfter(radix: string, c: char, digits: string, x: char)
    requires forall d :: d in radix ==> '0' <= d <= '9'
    requires x == 'r' || x == 'R'
    ensures Find(radix + [c] + digits, x)
      == |radix| + if x == c then 0 else 1 + Find(digits, x)
  {
    var v := radix + [c] + digits;
    if radix == "" {
      assert v[1..] == digits;
    } else {
      assert radix[0] in radix && forall d :: d in radix[1..] ==> d in radix;
      assert v[1..] == radix[1..] + [c] + digits;
      FindAfter(radix[1..], c, digits, x);
    }
  }

  /** Some numbers as they are written. */
  lemma SomeNumbers()
    ensures AreDigits(2, "101") && Number(2, "101") == 5
    ensures AreDigits(10, "120") && Number(10, "120") == 120
    ensures AreDigits(36, "zZ") && Number(36, "zZ") == 35 * 36 + 35
    ensures Value([1, 2, 3]) == 1 + 2 * 256 + 3 * 65536 && SMI_MAX == 4611686018427387903
  {
    assert "101"[..2] == "10" && "10"[..1] == "1" && "1"[..0] == "";
    assert "120"[..2] == "12" && "12"[..1] == "1";
    assert "zZ"[..1] == "z" && "z"[..0] == "";
    assert [1, 2, 3][1..] == [2, 3] && [2, 3][1..] == [3] && [3][1..] == [];
  }

  lemma RadixAt(v: string)
    requires |v| >= 3 && v[0] == '1' && v[1] == '6' && v[2] == 'r'
    ensures Find(v, 'r') == 2 && v[..2] == "16" && AreDigits(10, v[..2]) && Number(10, v[..2]) == 16
  {
    assert Find(v[1..][1..], 'r') == 0;
    assert Find(v[1..], 'r') == 1;
    assert v[..2] == "16";
    NumberOfAppend(10, "1", '6');
    NumberOfAppend(10, "", '1');
    assert "" + ['1'] == "1" && "1" + ['6'] == "16";
  }

  /** A number after a minus sign: what its digits alone denote, negated. */
  method NegativeNumber(v: string) returns (r: Option<Literal>)
    ensures r.Some? <==> Split(v).Some? && AreDigits(Split(v).value.0, Split(v).value.1)
    ensures r.Some? ==> MeansNegative(r.value, Number(Split(v).value.0, Split(v).value.1))
  {
    r := ParseIntegerString(v);
    if r.Some? {
      r := Some(match r.value case Small(n) => Small(-n) case Large(bytes, _) => Large(bytes, true));
    }
  }

  /** Small exactly when the digits alone are: so the least small integer, one further from zero
      than the greatest, is made large although it would fit. */
  predicate MeansNegative(r: Literal, n: nat) {
    && (r.Small? <==> n <= SMI_MAX)
    && (r.Small? ==> r.value + n == 0)
    && (r.Large? ==> Value(r.bytes) == n && Canonical(r.bytes) && r.negative)
  }

  // ---- there and back

  lemma {:induction false} SameBytes(a: seq<Byte>, b: seq<Byte>)
    requires |a| == |b| && Value(a) == Value(b)
    ensures a == b
  {
    if a != [] {
      SameBytes(a[1..], b[1..]);
      assert a == [a[0]] + a[1..] && b == [b[0]] + b[1..];
    }
  }

  lemma CanonicalBound(bs: seq<Byte>)
    requires Canonical(bs)
    ensures Power(|bs| - 2) <= Value(bs) < Power(|bs|)
  {
    ValueBound(bs);
    if bs[|bs| - 1] != 0 {
      HighByte(bs);
      PowerGrows(|bs| - 2, |bs| - 1);
    } else {
      var front := bs[..|bs| - 1];
      assert front + [0] == bs;
      ValueOfPadded(front);
      HighByte(front);
    }
  }

  /** A number has one canonical sequence of bytes. */
  lemma CanonicalUnique(a: seq<Byte>, b: seq<Byte>)
    requires Canonical(a) && Canonical(b) && Value(a) == Value(b)
    ensures a == b
  {
    CanonicalBound(a);
    CanonicalBound(b);
    if |a| < |b| {
      PowerGrows(|a|, |b| - 2);
    } else if |b| < |a| {
      PowerGrows(|b|, |a| - 2);
    } else {
      SameBytes(a, b);
    }
  }

  /** A large integer printed and parsed again is itself. */
  method PrintedAndParsed(bytes: seq<Byte>, negative: bool) returns (r: Option<Literal>)
    requires Canonical(bytes) && Value(bytes) > SMI_MAX
    ensures r == Some(Large(bytes, negative))
  {
    var text := PrintLargeInteger(bytes, negative);
    ghost var digits := text[if negative then 4 else 3..];
    Forms(digits);
    if negative {
      assert text[1..] == text[..4][1..] + digits;
      r := NegativeNumber(text[1..]);
    } else {
      assert text == text[..3] + digits;
      r := ParseIntegerString(text);
    }
    CanonicalUnique(bytes, r.value.bytes);
  }
}
