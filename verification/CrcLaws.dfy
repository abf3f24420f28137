/** What the hash does and does not tell apart. */
module CrcLaws {
  import opened Base
  import opened Crc32

  /** hash_block as the number it returns. */
  function Hash(s: seq<byte>): nat { Value(Crc(CLEAR, s)) }

  /** A block may be hashed in pieces. */
  lemma {:induction false} CrcSplit(c: Register, s: seq<byte>, t: seq<byte>)
    ensures Crc(c, s + t) == Crc(Crc(c, s), t)
    decreases |s|
  {
    hide Feed;
    if s == [] {
      assert s + t == t;
    } else {
      assert (s + t)[1..] == s[1..] + t;
      CrcSplit(Feed(c, s[0]), s[1..], t);
    }
  }

  // ----- No two registers or short windows are confused -----

  lemma XorCancels(a: Bits, b: Bits, x: Bits)
    requires |a| == |b| == |x| && Xor(a, x) == Xor(b, x)
    ensures a == b
  {
    forall i | 0 <= i < |a|
      ensures a[i] == b[i]
    {
      assert Xor(a, x)[i] == (a[i] != x[i]) && Xor(b, x)[i] == (b[i] != x[i]);
    }
  }

  lemma {:induction false} CrcInjectiveInRegister(c: Register, d: Register, s: seq<byte>)
    requires Crc(c, s) == Crc(d, s)
    ensures c == d
    decreases |s|
  {
    hide Shifts;
    if s != [] {
      CrcInjectiveInRegister(Feed(c, s[0]), Feed(d, s[0]), s[1..]);
      ShiftsInjective(Xor(c, Widen(s[0])), Xor(d, Widen(s[0])), 8);
      XorCancels(c, d, Widen(s[0]));
    }
  }

  /** The bits of the bytes one after the other. */
  function Flat(s: seq<byte>): (r: Bits)
    ensures |r| == 8 * |s|
  {
    if s == [] then [] else BitsOf(s[0], 8) + Flat(s[1..])
  }

  /** Up to four bytes side by side in a register. */
  function Packed(s: seq<byte>): Register
    requires |s| <= 4
  {
    Flat(s) + Zeros(32 - 8 * |s|)
  }

  /** Up to three bytes, behind the byte that is fed first. */
  function LateBytes(s: seq<byte>): Register
    requires |s| <= 3
  {
    Zeros(8) + Flat(s) + Zeros(24 - 8 * |s|)
  }

  lemma PackedSplit(c: Register, s: seq<byte>)
    requires 0 < |s| <= 4
    ensures Xor(c, Packed(s)) == Xor(Xor(c, Widen(s[0])), LateBytes(s[1..]))
    ensures RightShift(LateBytes(s[1..]), 8) == Packed(s[1..])
  {
    hide BitsOf, Zeros;
    var rest := s[1..];
    LateShifted(rest);
    var first, tail := BitsOf(s[0], 8), Flat(rest) + Zeros(24 - 8 * |rest|);
    assert Packed(s) == first + tail by { Assoc(first, Flat(rest), Zeros(24 - 8 * |rest|)); }
    assert LateBytes(rest) == Zeros(8) + tail by { Assoc(Zeros(8), Flat(rest), Zeros(24 - 8 * |rest|)); }
    XorHalves(c, first, tail);
  }

  lemma XorHalves(c: Register, first: Bits, tail: Bits)
    requires |first| == 8 && |tail| == 24
    ensures Xor(c, first + tail) == Xor(Xor(c, first + Zeros(24)), Zeros(8) + tail)
  {
  }

  lemma LateShifted(rest: seq<byte>)
    requires |rest| <= 3
    ensures RightShift(LateBytes(rest), 8) == Packed(rest)
  {
    hide BitsOf, Zeros, Flat;
    assert Zeros(24 - 8 * |rest|) + Zeros(8) == Zeros(32 - 8 * |rest|);
    assert RightShift(LateBytes(rest), 8) == Flat(rest) + (Zeros(24 - 8 * |rest|) + Zeros(8));
  }

  /** When the first byte has been clocked in, the others are next. */
  lemma FirstFed(c: Register, s: seq<byte>)
    requires 0 < |s| <= 4
    ensures Shifts(Xor(c, Packed(s)), 8) == Xor(Feed(c, s[0]), Packed(s[1..]))
  {
    hide Shifts, Packed, LateBytes, Widen, RightShift, Xor;
    PackedSplit(c, s);
    var late := LateBytes(s[1..]);
    ShiftsLinear(Xor(c, Widen(s[0])), late, 8);
    LateStartsLate(s[1..]);
    ZerosLeave(late, 8);
  }

  lemma LateStartsLate(s: seq<byte>)
    requires |s| <= 3
    ensures forall i :: 0 <= i < 8 ==> !LateBytes(s)[i]
  {
    hide Flat;
  }

  /** Up to four bytes enter the register as if all at once. */
  lemma {:induction false} FeedPacked(c: Register, s: seq<byte>)
    requires |s| <= 4
    ensures Crc(c, s) == Shifts(Xor(c, Packed(s)), 8 * |s|)
    decreases |s|
  {
    if s == [] {
      assert Xor(c, Packed(s)) == c;
    } else {
      hide Shifts, Packed;
      var rest := s[1..];
      FeedPacked(Feed(c, s[0]), rest);
      FirstFed(c, s);
      ShiftsAdd(Xor(c, Packed(s)), 8, 8 * |rest|);
    }
  }

  lemma {:induction false} FlatInjective(s: seq<byte>, t: seq<byte>)
    requires |s| == |t| && Flat(s) == Flat(t)
    ensures s == t
  {
    if s != [] {
      assert BitsOf(s[0], 8) == Flat(s)[..8] && BitsOf(t[0], 8) == Flat(t)[..8];
      ByteOfBits(s[0]);
      ByteOfBits(t[0]);
      assert Flat(s[1..]) == Flat(s)[8..] && Flat(t[1..]) == Flat(t)[8..];
      FlatInjective(s[1..], t[1..]);
    }
  }

  lemma ByteOfBits(b: byte)
    ensures Value(BitsOf(b, 8)) == b
  {
    ValueOfBits(b, 8);
  }

  lemma {:induction false} ValueOfBits(n: nat, width: nat)
    requires n < Pow2(width)
    ensures Value(BitsOf(n, width)) == n
  {
    if width > 0 {
      ValueOfBits(n / 2, width - 1);
      assert BitsOf(n, width)[1..] == BitsOf(n / 2, width - 1);
    }
  }

  lemma {:induction false} ValueInjective(a: Bits, b: Bits)
    requires |a| == |b| && Value(a) == Value(b)
    ensures a == b
  {
    if a != [] { ValueInjective(a[1..], b[1..]); }
  }

  /** Blocks of equal length that differ only within four consecutive bytes have different hashes,
      whatever comes before and after. */
  lemma BurstsAreDetected(prefix: seq<byte>, u: seq<byte>, v: seq<byte>, suffix: seq<byte>)
    requires |u| == |v| <= 4 && u != v
    ensures Hash(prefix + u + suffix) != Hash(prefix + v + suffix)
  {
    hide Crc, Shifts, Feed;
    var c := Crc(CLEAR, prefix);
    CrcSplit(CLEAR, prefix + u, suffix);
    CrcSplit(CLEAR, prefix, u);
    CrcSplit(CLEAR, prefix + v, suffix);
    CrcSplit(CLEAR, prefix, v);
    if Hash(prefix + u + suffix) == Hash(prefix + v + suffix) {
      ValueInjective(Crc(CLEAR, prefix + u + suffix), Crc(CLEAR, prefix + v + suffix));
      CrcInjectiveInRegister(Crc(c, u), Crc(c, v), suffix);
      FeedPacked(c, u);
      FeedPacked(c, v);
      ShiftsInjective(Xor(c, Packed(u)), Xor(c, Packed(v)), 8 * |u|);
      assert Xor(c, Packed(u)) == Xor(Packed(u), c) && Xor(c, Packed(v)) == Xor(Packed(v), c);
      XorCancels(Packed(u), Packed(v), c);
      assert Flat(u) == Packed(u)[..8 * |u|] && Flat(v) == Packed(v)[..8 * |u|];
      FlatInjective(u, v);
      assert false;
    }
  }

  /** Blocks of at most four bytes and equal length, such as the pointers of int_type and ptr_type on a 32-bit
      machine, never collide. */
  lemma ShortBlocksNeverCollide(u: seq<byte>, v: seq<byte>)
    requires |u| == |v| <= 4 && Hash(u) == Hash(v)
    ensures u == v
  {
    if u != v {
      assert [] + u + [] == u && [] + v + [] == v;
      BurstsAreDetected([], u, v, []);
    }
  }

  // ----- What it cannot tell apart -----

  function XorBytes(s: seq<byte>, t: seq<byte>): (r: seq<byte>)
    requires |s| == |t|
    ensures |r| == |s|
  {
    if s == [] then [] else [XorByte(s[0], t[0])] + XorBytes(s[1..], t[1..])
  }

  function XorByte(a: byte, b: byte): byte {
    IndexBound(Xor(BitsOf(a, 8), BitsOf(b, 8)));
    Value(Xor(BitsOf(a, 8), BitsOf(b, 8)))
  }

  lemma WidenXor(a: byte, b: byte)
    ensures Widen(XorByte(a, b)) == Xor(Widen(a), Widen(b))
  {
    BitsOfValue(Xor(BitsOf(a, 8), BitsOf(b, 8)));
  }

  /** The hash is linear over GF(2). */
  lemma {:induction false} CrcLinear(c: Register, d: Register, s: seq<byte>, t: seq<byte>)
    requires |s| == |t|
    ensures Crc(Xor(c, d), XorBytes(s, t)) == Xor(Crc(c, s), Crc(d, t))
    decreases |s|
  {
    if s != [] {
      hide Shifts, Widen, XorByte;
      var a, b := Xor(c, Widen(s[0])), Xor(d, Widen(t[0]));
      WidenXor(s[0], t[0]);
      assert Xor(Xor(c, d), Widen(XorByte(s[0], t[0]))) == Xor(a, b);
      ShiftsLinear(a, b, 8);
      CrcLinear(Feed(c, s[0]), Feed(d, t[0]), s[1..], t[1..]);
    }
  }

  /** Two blocks of equal length collide exactly when the block of their differences hashes to zero. */
  lemma CollisionsAreLinear(s: seq<byte>, t: seq<byte>)
    requires |s| == |t|
    ensures Hash(s) == Hash(t) <==> Hash(XorBytes(s, t)) == 0
  {
    hide Crc, Value, Xor, Zeros;
    var a, b := Crc(CLEAR, s), Crc(CLEAR, t);
    XorIsZero(CLEAR, CLEAR);
    CrcLinear(CLEAR, CLEAR, s, t);
    ZerosValue(32);
    XorIsZero(a, b);
    if Hash(s) == Hash(t) { ValueInjective(a, b); }
    if Hash(XorBytes(s, t)) == 0 { ValueInjective(Xor(a, b), CLEAR); }
  }

  lemma XorIsZero(a: Bits, b: Bits)
    requires |a| == |b|
    ensures Xor(a, b) == Zeros(|a|) <==> a == b
  {
    if Xor(a, b) == Zeros(|a|) {
      forall i | 0 <= i < |a| ensures a[i] == b[i] { assert !Xor(a, b)[i]; }
    }
  }

  /** Leading zero bytes are invisible: blocks of different length collide. */
  lemma {:induction false} LeadingZerosInvisible(n: nat, s: seq<byte>)
    ensures Hash(ZeroBytes(n) + s) == Hash(s)
  {
    hide Feed, Value, Zeros;
    if n == 0 {
      assert ZeroBytes(0) + s == s;
    } else {
      var z := ZeroBytes(n) + s;
      assert z[0] == 0 && z[1..] == ZeroBytes(n - 1) + s;
      FeedZero();
      LeadingZerosInvisible(n - 1, s);
    }
  }

  function ZeroBytes(n: nat): seq<byte> {
    if n == 0 then [] else [0] + ZeroBytes(n - 1)
  }

  lemma FeedZero()
    ensures Feed(CLEAR, 0) == CLEAR
  {
    hide Shifts;
    ZerosValue(8);
    BitsOfValue(Zeros(8));
    assert Widen(0) == CLEAR;
    assert Xor(CLEAR, CLEAR) == CLEAR;
    ZerosLeave(CLEAR, 8);
    assert RightShift(CLEAR, 8) == CLEAR;
  }
}
