/** The table-driven hash functions of dict.c. */
module CrcTable {
  import opened Base
  import opened Crc32
  import opened CrcLaws

  /** The static `crc32` and `crc32_initialized`. */
  class Table {
    var entries: array<Register>
    var initialized: bool

    ghost predicate Valid()
      reads this, entries
    {
      entries.Length == 256 && (initialized ==> forall t: byte :: entries[t] == Entry(t))
    }

    constructor ()
      ensures Valid() && !initialized && fresh(entries)
    {
      entries := new Register[256](i => CLEAR);
      initialized := false;
    }

    /** crc32_init */
    method Init()
      requires Valid()
      modifies this`initialized, entries
      ensures Valid() && initialized
    {
      hide Entry;
      if initialized {
        return;
      }
      initialized := true;
      var t := 0;
      while t < 256
        invariant initialized && 0 <= t <= 256 && entries.Length == 256
        invariant forall i: byte :: i < t ==> entries[i] == Entry(i)
      {
        var c := ClockEightTimes(t);
        entries[t] := c;
        t := t + 1;
      }
    }

    /** The inner loop of crc32_init. */
    static method ClockEightTimes(t: byte) returns (c: Register)
      ensures c == Entry(t)
    {
      hide Shift;
      c := BitsOf(t, 32);
      var s := 0;
      while s < 8
        invariant 0 <= s <= 8
        invariant Shifts(c, 8 - s) == Entry(t)
      {
        c := Shift(c);
        s := s + 1;
      }
    }

    /** The expression `checksum>>8 ^ crc32[(b^checksum)&0xff]` */
    method Update(checksum: Register, b: byte) returns (r: Register)
      requires Valid() && initialized
      ensures r == Feed(checksum, b)
    {
      TableStep(checksum, b);
      r := Xor(RightShift(checksum, 8), entries[Index(checksum, b)]);
    }

    /** crc32_add_byte */
    method AddByte(checksum: Register, b: byte) returns (r: Register)
      requires Valid()
      modifies this`initialized, entries
      ensures Valid() && r == Crc(checksum, [b])
    {
      Init();
      r := Update(checksum, b);
      assert Crc(r, []) == r;
    }

    /** crc32_add_string: up to the terminating NUL; nothing for a NULL pointer */
    method AddString(checksum: Register, s: Option<seq<byte>>) returns (r: Register)
      requires Valid() && (s.Some? ==> 0 in s.value && |s.value| <= INT_MAX)
      modifies this`initialized, entries
      ensures Valid() && r == if s.Some? then Crc(checksum, UntilNul(s.value)) else checksum
    {
      Init();
      r := checksum;
      if s.None? {
        return;
      }
      var p := s.value;
      while p[0] != 0
        invariant Valid() && initialized
        invariant 0 in p && |p| <= INT_MAX
        invariant Crc(r, UntilNul(p)) == Crc(checksum, UntilNul(s.value))
        decreases |p|
      {
        assert UntilNul(p)[0] == p[0] && UntilNul(p)[1..] == UntilNul(p[1..]);
        r := Update(r, p[0]);
        p := p[1..];
      }
      assert UntilNul(p) == [];
    }

    /** crc32_add_bytes: nothing for a NULL pointer or no bytes */
    method AddBytes(checksum: Register, s: Option<seq<byte>>, len: nat) returns (r: Register)
      requires Valid() && (s.Some? ==> len <= |s.value|)
      modifies this`initialized, entries
      ensures Valid() && r == if s.Some? then Crc(checksum, s.value[..len]) else checksum
    {
      Init();
      r := checksum;
      if s.None? || len == 0 {
        return;
      }
      var left, i := len, 0;
      while true
        invariant Valid() && initialized
        invariant 0 < left && i + left == len
        invariant Crc(r, s.value[i..len]) == Crc(checksum, s.value[..len])
        decreases left
      {
        assert s.value[i..len][1..] == s.value[i + 1..len];
        r := Update(r, s.value[i]);
        i := i + 1;
        left := left - 1;
        if left == 0 { break; }
      }
      assert s.value[i..len] == [];
    }

    /** hash_block */
    method HashBlock(data: seq<byte>) returns (h: nat)
      requires Valid()
      modifies this`initialized, entries
      ensures Valid() && h == Hash(data)
    {
      var checksum: Register := CLEAR;
      Init();
      for t := 0 to |data|
        invariant Valid() && initialized
        invariant Crc(checksum, data[t..]) == Crc(CLEAR, data)
      {
        assert data[t..][1..] == data[t + 1..];
        checksum := Update(checksum, data[t]);
      }
      h := Value(checksum);
    }
  }

  /** The ways of hashing agree: a string without NUL, taken whole, as bytes, or byte by byte, in any pieces. */
  lemma {:induction false} PiecesAgree(c: Register, pieces: seq<seq<byte>>)
    ensures Crc(c, Concat(pieces)) == CrcOfPieces(c, pieces)
    decreases |pieces|
  {
    hide Crc;
    if pieces == [] {
      assert Crc(c, []) == c by { CrcOfNothing(c); }
    } else {
      CrcSplit(c, pieces[0], Concat(pieces[1..]));
      PiecesAgree(Crc(c, pieces[0]), pieces[1..]);
    }
  }

  lemma CrcOfNothing(c: Register)
    ensures Crc(c, []) == c
  {
  }

  function Concat(pieces: seq<seq<byte>>): seq<byte> {
    if pieces == [] then [] else pieces[0] + Concat(pieces[1..])
  }

  function CrcOfPieces(c: Register, pieces: seq<seq<byte>>): Register
    decreases |pieces|
  {
    if pieces == [] then c else CrcOfPieces(Crc(c, pieces[0]), pieces[1..])
  }
}
