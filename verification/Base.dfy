/** Bytes, C strings and the little-endian 32-bit words that cross the pipes. */
module Base {

  datatype Option<+T> = None | Some(value: T)

  type byte = x: int | 0 <= x < 256

  const INT_MAX: int := 0x7fff_ffff
  const TWO_32: int := 0x1_0000_0000

  type int32 = i: int | -0x8000_0000 <= i <= INT_MAX

  /** The characters of a `char*` up to its terminating NUL, short enough for `int l = strlen(s)`. */
  type CString = s: seq<byte> | 0 !in s && |s| <= INT_MAX

  /** The four bytes of a float, carried without interpretation. */
  type Word = s: seq<byte> | |s| == 4 witness [0, 0, 0, 0]

  function Pow2(n: nat): (p: nat)
    ensures p >= 1
  {
    if n == 0 then 1 else 2 * Pow2(n - 1)
  }

  function Front<T>(s: seq<T>): seq<T>
    requires s != []
  {
    s[..|s| - 1]
  }

  function Last<T>(s: seq<T>): T
    requires s != []
  {
    s[|s| - 1]
  }

  function Pow256(n: nat): nat {
    if n == 0 then 1 else 0x100 * Pow256(n - 1)
  }

  function LittleEndian(u: nat, n: nat): (w: seq<byte>)
    ensures |w| == n
  {
    if n == 0 then [] else [u % 0x100] + LittleEndian(u / 0x100, n - 1)
  }

  function Unsigned(w: seq<byte>): (u: nat)
    ensures u < Pow256(|w|)
  {
    if w == [] then 0 else
      var low: int := w[0];
      low + 0x100 * Unsigned(w[1..])
  }

  lemma {:induction false} UnsignedOfLittleEndian(u: nat, n: nat)
    requires u < Pow256(n)
    ensures Unsigned(LittleEndian(u, n)) == u
  {
    if n > 0 {
      UnsignedOfLittleEndian(u / 0x100, n - 1);
      assert LittleEndian(u, n)[1..] == LittleEndian(u / 0x100, n - 1);
    }
  }

  /** The bytes of a number, the lowest first. */
  function FourBytes(u: nat): (w: seq<byte>)
    ensures |w| == 4
  {
    [u % 0x100, u / 0x100 % 0x100, u / 0x1_0000 % 0x100, u / 0x100_0000 % 0x100]
  }

  lemma LittleEndianOf4(u: nat)
    ensures LittleEndian(u, 4) == FourBytes(u)
  {
    var b, c, d := u / 0x100, u / 0x1_0000, u / 0x100_0000;
    assert b / 0x100 == c && c / 0x100 == d;
    assert LittleEndian(d, 1) == [d % 0x100] + LittleEndian(d / 0x100, 0);
    assert LittleEndian(c, 2) == [c % 0x100] + LittleEndian(d, 1);
    assert LittleEndian(b, 3) == [b % 0x100] + LittleEndian(c, 2);
    assert LittleEndian(u, 4) == [u % 0x100] + LittleEndian(b, 3);
  }

  lemma Pow256Of4()
    ensures Pow256(4) == TWO_32
  {
  }

  /** A count as the 32-bit `int` that holds it. */
  function ToInt32(n: nat): (i: int32)
    ensures (n - i) % TWO_32 == 0
  {
    var u := n % TWO_32;
    if u > INT_MAX then u - TWO_32 else u
  }

  /** The four bytes `write(fd, &i, sizeof(i))` sends on a little-endian machine. */
  function IntBytes(i: int32): (w: Word)
    ensures BytesInt(w) == i
  {
    var u: nat := if i < 0 then i + TWO_32 else i;
    Pow256Of4();
    UnsignedOfLittleEndian(u, 4);
    LittleEndian(u, 4)
  }

  /** The signed integer held in four bytes. */
  function BytesInt(w: Word): int32 {
    Pow256Of4();
    var u := Unsigned(w);
    if u > INT_MAX then u - TWO_32 else u
  }

  /** The C string that starts at the first of these bytes: everything before the first NUL. */
  function UntilNul(raw: seq<byte>): (s: CString)
    requires |raw| <= INT_MAX
    ensures s <= raw && (|s| < |raw| ==> raw[|s|] == 0)
    ensures 0 !in raw ==> s == raw
  {
    if raw == [] || raw[0] == 0 then [] else
      var rest: seq<byte> := UntilNul(raw[1..]);
      [raw[0]] + rest
  }

  lemma Assoc<T>(a: seq<T>, b: seq<T>, c: seq<T>)
    ensures (a + b) + c == a + (b + c)
  {
  }

  lemma DropTwice<T>(s: seq<T>, a: nat, b: nat)
    requires a + b <= |s|
    ensures s[a..][b..] == s[a + b..] && s[a..][..b] == s[a..a + b]
  {
  }

  lemma Concat4<T>(a: seq<T>, b: seq<T>, c: seq<T>, d: seq<T>)
    ensures ((a + b) + c) + d == a + ((b + c) + d)
  {
  }
}
