/** The hash under the table: crc32 of dict.c. A clocked shift register is the specification, the table of
    256 words the fast form. An `unsigned int` is its 32 bits, the least significant one first. */
module Crc32 {
  import opened Base

  type Bits = seq<bool>
  type Register = s: Bits | |s| == 32 witness Zeros(32)

  function Zeros(n: nat): (r: Bits)
    ensures |r| == n && forall i :: 0 <= i < n ==> !r[i]
  {
    if n == 0 then [] else [false] + Zeros(n - 1)
  }

  function Value(s: Bits): nat {
    if s == [] then 0 else (if s[0] then 1 else 0) + 2 * Value(s[1..])
  }

  function BitsOf(n: nat, width: nat): (r: Bits)
    ensures |r| == width
    decreases width
  {
    if width == 0 then [] else [n % 2 == 1] + BitsOf(n / 2, width - 1)
  }

  lemma {:induction false} BitsOfValue(s: Bits)
    ensures BitsOf(Value(s), |s|) == s
  {
    if s != [] { BitsOfValue(s[1..]); }
  }

  function Xor(a: Bits, b: Bits): (r: Bits)
    requires |a| == |b|
    ensures |r| == |a| && forall i :: 0 <= i < |r| ==> r[i] == (a[i] != b[i])
  {
    seq(|a|, i requires 0 <= i < |a| => a[i] != b[i])
  }

  /** The polynomial of section 8 of RFC 1952, used here without complementing before and after. */
  const POLYNOMIAL: Register := BitsOf(0xedb88320, 32)

  lemma {:induction false} TopBit(n: nat, width: nat)
    requires width > 0 && Pow2(width - 1) <= n < Pow2(width)
    ensures BitsOf(n, width)[width - 1]
  {
    if width > 1 { TopBit(n / 2, width - 1); }
  }

  lemma Pow2Of32()
    ensures Pow2(32) == TWO_32
  {
    assert Pow2(8) == 0x100;
    assert Pow2(16) == 0x1_0000 by { assert Pow2(12) == 0x1000; }
    assert Pow2(24) == 0x100_0000 by { assert Pow2(20) == 0x10_0000; }
    assert Pow2(32) == 0x1_0000_0000 by { assert Pow2(28) == 0x1000_0000; }
  }

  lemma PolynomialTop()
    ensures POLYNOMIAL[31]
  {
    Pow2Of32();
    TopBit(0xedb88320, 32);
  }

  lemma Nibble(s: Bits, i: nat)
    requires i + 4 <= |s|
    ensures Value(s[i..]) == (if s[i] then 1 else 0) + (if s[i + 1] then 2 else 0) + (if s[i + 2] then 4 else 0)
                             + (if s[i + 3] then 8 else 0) + 16 * Value(s[i + 4..])
  {
    assert s[i..][1..] == s[i + 1..] && s[i + 1..][1..] == s[i + 2..];
    assert s[i + 2..][1..] == s[i + 3..] && s[i + 3..][1..] == s[i + 4..];
    assert Value(s[i + 2..]) == (if s[i + 2] then 1 else 0) + (if s[i + 3] then 2 else 0) + 4 * Value(s[i + 4..]);
  }

  /** The register is clocked once. */
  function Shift(c: Register): Register {
    Xor(if c[0] then POLYNOMIAL else Zeros(32), c[1..] + [false])
  }

  function Shifts(c: Register, n: nat): Register
    decreases n
  {
    if n == 0 then c else Shifts(Shift(c), n - 1)
  }

  /** The eight bits of a byte, widened to a register. */
  function Widen(b: byte): Register {
    BitsOf(b, 8) + Zeros(24)
  }

  /** A byte enters the register bit by bit. */
  function Feed(c: Register, b: byte): Register {
    Shifts(Xor(c, Widen(b)), 8)
  }

  /** The register after all bytes of a block. */
  function Crc(c: Register, s: seq<byte>): Register
    decreases |s|
  {
    if s == [] then c else Crc(Feed(c, s[0]), s[1..])
  }

  const CLEAR: Register := Zeros(32)

  /** `c >> n` */
  function RightShift(c: Register, n: nat): Register
    requires n <= 32
  {
    c[n..] + Zeros(n)
  }

  // ----- The shift register is linear and loses nothing -----

  lemma ShiftLinear(a: Register, b: Register)
    ensures Shift(Xor(a, b)) == Xor(Shift(a), Shift(b))
  {
  }

  lemma ShiftBit(c: Register, i: nat)
    requires i < 32
    ensures Shift(c)[i] == ((c[0] && POLYNOMIAL[i]) != (i < 31 && c[i + 1]))
  {
    hide POLYNOMIAL, BitsOf;
  }

  lemma ShiftInjective(a: Register, b: Register)
    requires Shift(a) == Shift(b)
    ensures a == b
  {
    hide Shift, POLYNOMIAL;
    PolynomialTop();
    ShiftBit(a, 31);
    ShiftBit(b, 31);
    forall i | 0 < i < 32
      ensures a[i] == b[i]
    {
      ShiftBit(a, i - 1);
      ShiftBit(b, i - 1);
    }
  }

  lemma {:induction false} ShiftsLinear(a: Register, b: Register, n: nat)
    ensures Shifts(Xor(a, b), n) == Xor(Shifts(a, n), Shifts(b, n))
    decreases n
  {
    hide Shift;
    if n > 0 {
      ShiftLinear(a, b);
      ShiftsLinear(Shift(a), Shift(b), n - 1);
    }
  }

  lemma {:induction false} ShiftsInjective(a: Register, b: Register, n: nat)
    requires Shifts(a, n) == Shifts(b, n)
    ensures a == b
    decreases n
  {
    hide Shift;
    if n > 0 {
      ShiftsInjective(Shift(a), Shift(b), n - 1);
      ShiftInjective(a, b);
    }
  }

  lemma {:induction false} ShiftsAdd(c: Register, m: nat, n: nat)
    ensures Shifts(c, m + n) == Shifts(Shifts(c, m), n)
    decreases m
  {
    hide Shift;
    if m > 0 { ShiftsAdd(Shift(c), m - 1, n); }
  }

  lemma ZeroLeaves(c: Register)
    requires !c[0]
    ensures Shift(c) == c[1..] + [false]
  {
    hide Zeros;
  }

  lemma ShiftedTwice(c: Register, n: nat)
    requires 0 < n <= 32
    ensures RightShift(c[1..] + [false], n - 1) == RightShift(c, n)
  {
    assert c[1..][n - 1..] == c[n..] && (c[1..] + [false])[n - 1..] == c[n..] + [false];
    assert [false] + Zeros(n - 1) == Zeros(n);
  }

  /** While only zero bits leave it, the register just shifts. */
  lemma {:induction false} ZerosLeave(c: Register, n: nat)
    requires n <= 32 && forall i :: 0 <= i < n ==> !c[i]
    ensures Shifts(c, n) == RightShift(c, n)
    decreases n
  {
    if n > 0 {
      hide Shift, Zeros;
      var d := Shift(c);
      ZeroLeaves(c);
      ZerosLeave(d, n - 1);
      ShiftedTwice(c, n);
    } else {
      assert RightShift(c, 0) == c;
    }
  }

  // ----- The table -----

  /** Entry `t` of the table. */
  function Entry(t: byte): Register {
    Shifts(BitsOf(t, 32), 8)
  }

  /** The index `(b ^ c) & 0xff`. */
  function Index(c: Register, b: byte): (t: byte) {
    IndexBound(Xor(c[..8], BitsOf(b, 8)));
    Value(Xor(c[..8], BitsOf(b, 8)))
  }

  lemma IndexBound(s: Bits)
    requires |s| == 8
    ensures Value(s) < 256
  {
    Nibble(s, 0);
    Nibble(s, 4);
    assert s[0..] == s && s[8..] == [];
  }

  /** The table form of a step is the eight shifts, for every register and every byte. */
  lemma TableStep(c: Register, b: byte)
    ensures Feed(c, b) == Xor(RightShift(c, 8), Entry(Index(c, b)))
  {
    hide Shifts;
    var low := Xor(c[..8], BitsOf(b, 8));
    var lowWide: Register, high: Register := low + Zeros(24), Zeros(8) + c[8..];
    assert Xor(c, Widen(b)) == Xor(lowWide, high);
    ShiftsLinear(lowWide, high, 8);
    ZerosLeave(high, 8);
    assert RightShift(high, 8) == RightShift(c, 8);
    WideBits(low);
    assert Xor(Entry(Index(c, b)), RightShift(c, 8)) == Xor(RightShift(c, 8), Entry(Index(c, b)));
  }

  lemma WideBits(s: Bits)
    requires |s| <= 32
    ensures BitsOf(Value(s), 32) == s + Zeros(32 - |s|)
  {
    BitsOfValue(s + Zeros(32 - |s|));
    ZerosAddNothing(s, 32 - |s|);
  }

  lemma {:induction false} ZerosAddNothing(s: Bits, n: nat)
    ensures Value(s + Zeros(n)) == Value(s)
  {
    if s == [] {
      ZerosValue(n);
      assert s + Zeros(n) == Zeros(n);
    } else {
      assert (s + Zeros(n))[1..] == s[1..] + Zeros(n);
      ZerosAddNothing(s[1..], n);
    }
  }

  lemma {:induction false} ZerosValue(n: nat)
    ensures Value(Zeros(n)) == 0
  {
    if n > 0 { ZerosValue(n - 1); }
  }
}
