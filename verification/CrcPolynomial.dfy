/** The hash in terms of polynomials over GF(2): it is the remainder of the block times x^32 modulo the generator of
    section 8 of RFC 1952. Coefficients are listed from the highest power down. */
module CrcPolynomial {
  import opened Base
  import opened Crc32
  import opened CrcLaws

  /** A coefficient of x^32 + x^26 + x^23 + x^22 + x^16 + x^12 + x^11 + x^10 + x^8 + x^7 + x^5 + x^4 + x^2 + x + 1,
      counted from the highest. */
  predicate GeneratorAt(p: int) {
    32 - p in {32, 26, 23, 22, 16, 12, 11, 10, 8, 7, 5, 4, 2, 1, 0}
  }

  /** A coefficient of the product of `q` and the generator, counted from the highest. */
  predicate ProductAt(q: Bits, p: int)
    decreases |q|
  {
    q != [] && (q[0] && GeneratorAt(p)) != ProductAt(q[1..], p - 1)
  }

  /** Bit `i` of a number. */
  predicate Bit(n: nat, i: nat) {
    if i == 0 then n % 2 == 1 else Bit(n / 2, i - 1)
  }

  /** A coefficient of the block times x^32: the bytes in order, each with its lowest bit first. */
  predicate BlockAt(s: seq<byte>, p: int) {
    0 <= p < 8 * |s| && Bit(s[p / 8], p % 8)
  }

  /** A coefficient of a 32-bit number behind leading zeros, its lowest bit that of x^31. */
  predicate LowAt(h: nat, zeros: nat, p: int) {
    zeros <= p < zeros + 32 && Bit(h, p - zeros)
  }

  /** The block times x^32 is the generator times `q`, plus a number. */
  ghost predicate Divides(s: seq<byte>, q: Bits, h: nat) {
    forall p: int :: BlockAt(s, p) == (ProductAt(q, p) != LowAt(h, 8 * |s|, p))
  }

  // ----- Bits -----

  lemma {:induction false} BitOfBits(n: nat, width: nat, i: nat)
    requires i < width
    ensures BitsOf(n, width)[i] == Bit(n, i)
  {
    if i > 0 { BitOfBits(n / 2, width - 1, i - 1); }
  }

  lemma {:induction false} BitOfValue(s: Bits, i: nat)
    requires i < |s|
    ensures Bit(Value(s), i) == s[i]
  {
    if i > 0 {
      BitOfValue(s[1..], i - 1);
      assert Value(s) / 2 == Value(s[1..]);
    }
  }

  lemma {:induction false} BitOfFlat(s: seq<byte>, p: nat)
    requires p < 8 * |s|
    ensures Flat(s)[p] == Bit(s[p / 8], p % 8)
  {
    if p < 8 {
      BitOfBits(s[0], 8, p);
    } else {
      BitOfFlat(s[1..], p - 8);
      hide Flat, Bit, BitsOf;
      assert (p - 8) / 8 == p / 8 - 1 && (p - 8) % 8 == p % 8;
      LaterFlat(s, p);
    }
  }

  lemma LaterFlat(s: seq<byte>, p: nat)
    requires 8 <= p < 8 * |s|
    ensures Flat(s)[p] == Flat(s[1..])[p - 8]
  {
    assert Flat(s) == BitsOf(s[0], 8) + Flat(s[1..]);
    hide *;
  }

  /** The constant in crc32_init lists the coefficients after the leading one. */
  lemma PolynomialIsGenerator(p: int)
    ensures GeneratorAt(p) == (p == 0 || (0 < p <= 32 && POLYNOMIAL[p - 1]))
  {
    if 0 < p <= 32 {
      BitOfBits(0xedb88320, 32, p - 1);
      ConstantBits(p - 1);
    }
  }

  lemma ConstantBits(i: nat)
    requires i < 32
    ensures Bit(0xedb88320, i) <==> 31 - i in {26, 23, 22, 16, 12, 11, 10, 8, 7, 5, 4, 2, 1, 0}
  {
    var n0, n4, n8, n12 := 0xedb88320, 0xedb8832, 0xedb883, 0xedb88;
    var n16, n20, n24, n28 := 0xedb8, 0xedb, 0xed, 0xe;
    Nibbles(n0, i);
    if i >= 4 { Nibbles(n4, i - 4); }
    if i >= 8 { Nibbles(n8, i - 8); }
    if i >= 12 { Nibbles(n12, i - 12); }
    if i >= 16 { Nibbles(n16, i - 16); }
    if i >= 20 { Nibbles(n20, i - 20); }
    if i >= 24 { Nibbles(n24, i - 24); }
    if i >= 28 { Nibbles(n28, i - 28); }
  }

  lemma Nibbles(n: nat, i: nat)
    ensures i == 0 ==> Bit(n, i) == (n % 2 == 1)
    ensures i == 1 ==> Bit(n, i) == (n / 2 % 2 == 1)
    ensures i == 2 ==> Bit(n, i) == (n / 4 % 2 == 1)
    ensures i == 3 ==> Bit(n, i) == (n / 8 % 2 == 1)
    ensures i >= 4 ==> Bit(n, i) == Bit(n / 16, i - 4)
  {
    if i >= 1 { assert Bit(n, i) == Bit(n / 2, i - 1); }
    if i >= 2 { assert Bit(n / 2, i - 1) == Bit(n / 4, i - 2); }
    if i >= 3 { assert Bit(n / 4, i - 2) == Bit(n / 8, i - 3); }
    if i >= 4 { assert Bit(n / 8, i - 3) == Bit(n / 16, i - 4); }
  }

  // ----- The register divides -----

  /** A bit enters the register, which is clocked. */
  function Enter(c: Register, b: bool): Register {
    Shift(c[0 := c[0] != b])
  }

  lemma EnterBit(c: Register, b: bool, i: nat)
    requires i < 32
    ensures Enter(c, b)[i] == ((c[0] != b && POLYNOMIAL[i]) != (i < 31 && c[i + 1]))
  {
    hide Shift, POLYNOMIAL;
    ShiftBit(c[0 := c[0] != b], i);
  }

  /** One bit after the other. */
  function Clock(c: Register, bits: Bits): Register
    decreases |bits|
  {
    if bits == [] then c else Clock(Enter(c, bits[0]), bits[1..])
  }

  lemma {:induction false} ClockAppend(c: Register, a: Bits, b: Bits)
    ensures Clock(c, a + b) == Clock(Clock(c, a), b)
    decreases |a|
  {
    hide Enter;
    if a == [] {
      assert a + b == b;
    } else {
      assert (a + b)[1..] == a[1..] + b;
      ClockAppend(Enter(c, a[0]), a[1..], b);
    }
  }

  lemma OneClock(c: Register, bits: Bits)
    requires 0 < |bits| <= 32
    ensures Shift(Xor(c, bits + Zeros(32 - |bits|))) == Xor(Enter(c, bits[0]), bits[1..] + Zeros(33 - |bits|))
  {
    hide *;
    var x, y := Shift(Xor(c, bits + Zeros(32 - |bits|))), Xor(Enter(c, bits[0]), bits[1..] + Zeros(33 - |bits|));
    forall i: nat | i < 32
      ensures x[i] == y[i]
    {
      OneClockAt(c, bits, i);
    }
  }

  lemma OneClockAt(c: Register, bits: Bits, i: nat)
    requires 0 < |bits| <= 32 && i < 32
    ensures Shift(Xor(c, bits + Zeros(32 - |bits|)))[i] == Xor(Enter(c, bits[0]), bits[1..] + Zeros(33 - |bits|))[i]
  {
    hide *;
    ShiftBit(Xor(c, bits + Zeros(32 - |bits|)), i);
    EnterBit(c, bits[0], i);
  }

  lemma {:induction false} ShiftsAreClocks(c: Register, bits: Bits)
    requires |bits| <= 32
    ensures Shifts(Xor(c, bits + Zeros(32 - |bits|)), |bits|) == Clock(c, bits)
    decreases |bits|
  {
    hide Enter, Shift;
    if bits == [] {
      assert Xor(c, bits + Zeros(32)) == c;
    } else {
      OneClock(c, bits);
      ShiftsAreClocks(Enter(c, bits[0]), bits[1..]);
    }
  }

  lemma {:induction false} CrcIsClock(c: Register, s: seq<byte>)
    ensures Crc(c, s) == Clock(c, Flat(s))
    decreases |s|
  {
    hide Clock, Shifts;
    if s == [] {
      assert Clock(c, []) == c by { ShiftsOfNothing(c); }
    } else {
      ShiftsAreClocks(c, BitsOf(s[0], 8));
      CrcIsClock(Feed(c, s[0]), s[1..]);
      ClockAppend(c, BitsOf(s[0], 8), Flat(s[1..]));
    }
  }

  lemma ShiftsOfNothing(c: Register)
    ensures Clock(c, []) == c
  {
  }

  /** What is divided when `bits` are to come: they and the register, both from the highest power on. */
  predicate DividendAt(c: Register, bits: Bits, p: int) {
    (0 <= p < |bits| && bits[p]) != (0 <= p < 32 && c[p])
  }

  /** The bits that leave the register. */
  function Quotient(c: Register, bits: Bits): (q: Bits)
    ensures |q| == |bits|
    decreases |bits|
  {
    if bits == [] then [] else [c[0] != bits[0]] + Quotient(Enter(c, bits[0]), bits[1..])
  }

  lemma {:induction false} DivisionAt(c: Register, bits: Bits, p: int)
    ensures DividendAt(c, bits, p)
         == (ProductAt(Quotient(c, bits), p)
             != (0 <= p - |bits| < 32 && Clock(c, bits)[p - |bits|]))
    decreases |bits|
  {
    if bits != [] {
      hide GeneratorAt, Enter;
      var t, d := c[0] != bits[0], Enter(c, bits[0]);
      DivisionAt(d, bits[1..], p - 1);
      assert Quotient(c, bits)[1..] == Quotient(d, bits[1..]);
      OneDivision(c, bits, p);
    }
  }

  lemma OneDivision(c: Register, bits: Bits, p: int)
    requires bits != []
    ensures DividendAt(c, bits, p)
         == ((c[0] != bits[0] && GeneratorAt(p)) != DividendAt(Enter(c, bits[0]), bits[1..], p - 1))
  {
    hide GeneratorAt, POLYNOMIAL, Enter;
    PolynomialIsGenerator(p);
    if 0 < p <= 32 { EnterBit(c, bits[0], p - 1); }
  }

  // ----- The hash -----

  /** The block times x^32 is a multiple of the generator plus the hash. */
  lemma HashIsRemainder(s: seq<byte>) returns (q: Bits)
    ensures |q| == 8 * |s| && Hash(s) < TWO_32 && Divides(s, q, Hash(s))
  {
    hide ProductAt, Crc, Flat, Clock, Value, Bit, Quotient;
    q := Quotient(CLEAR, Flat(s));
    CrcIsClock(CLEAR, s);
    ValueBound(Crc(CLEAR, s));
    Pow2Of32();
    forall p: int
      ensures BlockAt(s, p) == (ProductAt(q, p) != LowAt(Hash(s), 8 * |s|, p))
    {
      DivisionAt(CLEAR, Flat(s), p);
      if 0 <= p < 8 * |s| { BitOfFlat(s, p); }
      if 0 <= p - 8 * |s| < 32 { BitOfValue(Crc(CLEAR, s), p - 8 * |s|); }
    }
  }

  lemma {:induction false} ValueBound(s: Bits)
    ensures Value(s) < Pow2(|s|)
  {
    if s != [] { ValueBound(s[1..]); }
  }

  /** No other quotient and no other 32-bit number will do: the hash is the remainder. */
  lemma RemainderIsUnique(s: seq<byte>, p: Bits, q: Bits, g: nat, h: nat)
    requires |p| == |q| == 8 * |s| && g < TWO_32 && h < TWO_32
    requires Divides(s, p, g) && Divides(s, q, h)
    ensures p == q && g == h
  {
    hide ProductAt, Bit, LowAt, BlockAt;
    forall i: int
      ensures (ProductAt(p, i) != LowAt(g, |p|, i)) == (ProductAt(q, i) != LowAt(h, |p|, i))
    {
    }
    SameDivision(p, q, g, h);
  }

  lemma {:induction false} SameDivision(p: Bits, q: Bits, g: nat, h: nat)
    requires |p| == |q| && g < TWO_32 && h < TWO_32
    requires forall i: int ::
               (ProductAt(p, i) != LowAt(g, |p|, i)) == (ProductAt(q, i) != LowAt(h, |p|, i))
    ensures p == q && g == h
    decreases |p|
  {
    hide Bit;
    if p == [] {
      hide ProductAt;
      forall i: nat | i < 32
        ensures Bit(g, i) == Bit(h, i)
      {
        NoProduct(i);
        assert LowAt(g, 0, i) == LowAt(h, 0, i);
      }
      BitsDetermine(g, h);
    } else {
      NothingBefore(p[1..], -1);
      NothingBefore(q[1..], -1);
      assert (ProductAt(p, 0) != LowAt(g, |p|, 0)) == (ProductAt(q, 0) != LowAt(h, |p|, 0));
      assert p[0] == q[0];
      forall i: int
        ensures (ProductAt(p[1..], i) != LowAt(g, |p| - 1, i))
             == (ProductAt(q[1..], i) != LowAt(h, |p| - 1, i))
      {
        assert (ProductAt(p, i + 1) != LowAt(g, |p|, i + 1))
            == (ProductAt(q, i + 1) != LowAt(h, |p|, i + 1));
      }
      SameDivision(p[1..], q[1..], g, h);
      assert p == [p[0]] + p[1..] && q == [q[0]] + q[1..];
    }
  }

  lemma NoProduct(i: int)
    ensures !ProductAt([], i)
  {
  }

  lemma {:induction false} NothingBefore(q: Bits, p: int)
    requires p < 0
    ensures !ProductAt(q, p)
    decreases |q|
  {
    if q != [] { NothingBefore(q[1..], p - 1); }
  }

  lemma BitsDetermine(g: nat, h: nat)
    requires g < TWO_32 && h < TWO_32 && forall i: nat :: i < 32 ==> Bit(g, i) == Bit(h, i)
    ensures g == h
  {
    hide BitsOf, Bit;
    forall i: nat | i < 32
      ensures BitsOf(g, 32)[i] == BitsOf(h, 32)[i]
    {
      BitOfBits(g, 32, i);
      BitOfBits(h, 32, i);
    }
    assert BitsOf(g, 32) == BitsOf(h, 32);
    hide Value;
    Pow2Of32();
    ValueOfBits(g, 32);
    ValueOfBits(h, 32);
  }

  /** The block of the byte 0x80 is x^32. */
  lemma HashOfOne()
    ensures Hash([0x80]) == 0xedb88320
  {
    hide Shift, Shifts, Value, BitsOf, POLYNOMIAL;
    var one: Register := Widen(0x80);
    OneBit();
    assert Xor(CLEAR, one) == one;
    assert Crc(CLEAR, [0x80]) == Crc(Feed(CLEAR, 0x80), []) == Feed(CLEAR, 0x80);
    ShiftsAdd(one, 7, 1);
    ZerosLeave(one, 7);
    LastShift(RightShift(one, 7));
    PolynomialValue();
  }

  lemma OneBit()
    ensures forall i: nat :: i < 32 ==> Widen(0x80)[i] == (i == 7)
  {
    hide BitsOf, Zeros, Bit;
    forall i: nat | i < 8
      ensures Widen(0x80)[i] == (i == 7)
    {
      BitOfBits(0x80, 8, i);
      Nibbles(0x80, i);
      if i >= 4 { Nibbles(0x8, i - 4); }
    }
  }

  lemma LastShift(c: Register)
    requires forall i: nat :: i < 32 ==> c[i] == (i == 0)
    ensures Shifts(c, 1) == POLYNOMIAL
  {
    hide Shift, POLYNOMIAL;
    assert Shifts(c, 1) == Shifts(Shift(c), 0) == Shift(c);
    forall i: nat | i < 32
      ensures Shift(c)[i] == POLYNOMIAL[i]
    {
      ShiftBit(c, i);
    }
  }

  lemma PolynomialValue()
    ensures Value(POLYNOMIAL) == 0xedb88320
  {
    Pow2Of32();
    ValueOfBits(0xedb88320, 32);
  }
}
