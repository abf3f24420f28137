/** The format on the wire in bytes and numbers, and what the readers make of bytes that no writer sends. */
module WireFormat {
  import opened Base
  import opened Codec
  import opened Session
  import opened Frames
  import opened ParentSide
  import opened ChildSide

  // ----- Written -----

  /** An `int` goes out in two's complement. */
  lemma IntLayout(i: int32)
    ensures IntBytes(i) == FourBytes(if i < 0 then i + 0x1_0000_0000 else i)
  {
    LittleEndianOf4(if i < 0 then i + TWO_32 else i);
  }

  /** The encodings of some values one after the other. */
  ghost predicate Consecutive(vs: seq<Value>, bytes: seq<byte>)
    decreases |vs|
  {
    if vs == [] then bytes == []
    else Encode(vs[0]) <= bytes && Consecutive(vs[1..], bytes[|Encode(vs[0])|..])
  }

  lemma {:induction false} AllAreConsecutive(vs: seq<Value>)
    ensures Consecutive(vs, EncodeAll(vs))
    decreases |vs|
  {
    if vs != [] {
      hide Encode;
      AllAreConsecutive(vs[1..]);
      assert EncodeAll(vs)[|Encode(vs[0])|..] == EncodeAll(vs[1..]);
    }
  }

  /** A string is its length and its characters, without the NUL. */
  lemma StringLayout(s: CString)
    ensures EncodeString(s) == FourBytes(|s|) + s
  {
    IntLayout(|s|);
  }

  /** A value is its type, in the order of type_t, and what belongs to it. */
  lemma ValueLayout(v: Value)
    requires WellFormed(v)
    ensures match v
      case Void => Encode(v) == [0]
      case Float32(w) => Encode(v) == [1] + w
      case Int32(i) => Encode(v) == [2] + FourBytes(if i < 0 then i + 0x1_0000_0000 else i)
      case Boolean(b) => Encode(v) == if b then [3, 1] else [3, 0]
      case Str(s) => Encode(v) == [4] + (FourBytes(|s|) + s)
      case Array(elems) => Encode(v)[..5] == [5] + FourBytes(|elems|) && Consecutive(elems, Encode(v)[5..])
      case Function(_) => Encode(v) == [6]
  {
    hide IntBytes, EncodeAll, EncodeString, FourBytes, Consecutive;
    match v
    case Int32(i) => IntLayout(i);
    case Str(s) => StringLayout(s);
    case Array(elems) =>
      IntLayout(|elems|);
      AllAreConsecutive(elems);
      assert Encode(v)[5..] == EncodeAll(elems);
    case _ =>
  }

  /** A command is its number, a string, and what belongs to it. */
  lemma CommandLayout(c: Command)
    ensures match c
      case ConstantCmd(name, value) => CommandBytes(c) == [1] + (FourBytes(|name|) + name) + Encode(value)
      case FunctionCmd(name, n) => CommandBytes(c) == [2] + (FourBytes(|name|) + name) + [n]
      case CompileCmd(script) => CommandBytes(c) == [3] + (FourBytes(|script|) + script)
      case IsFunctionCmd(name) => CommandBytes(c) == [4] + (FourBytes(|name|) + name)
      case CallCmd(name, args) => CommandBytes(c) == [5] + (FourBytes(|name|) + name) + Encode(args)
  {
    StringLayout(if c.CompileCmd? then c.script else c.name);
    hide EncodeString, Encode, FourBytes;
  }

  /** A message of the child is its number and what belongs to it; results have no number. */
  lemma UnitLayout(u: Unit)
    ensures match u
      case CallU(name, args) => UnitBytes(u) == [10] + (FourBytes(|name|) + name) + Encode(args)
      case ReturnU => UnitBytes(u) == [11]
      case ErrorU => UnitBytes(u) == [12]
      case LogU(msg) => UnitBytes(u) == [13] + (FourBytes(|msg|) + msg)
      case FlagU(b) => UnitBytes(u) == if b then [1] else [0]
      case ValU(v) => UnitBytes(u) == Encode(v)
  {
    if u.CallU? { StringLayout(u.name); }
    if u.LogU? { StringLayout(u.msg); }
    hide EncodeString, Encode, FourBytes;
  }

  // ----- Limits -----

  /** The parent takes strings of less than 4096 characters, the child strings of any length. */
  lemma StringLimit(s: CString, tail: seq<byte>)
    ensures Decode(Encode(Str(s)) + tail, 0, READ_VALUE).Ok? <==> |s| < 4096
    ensures DecodeString(EncodeString(s) + tail, MAX_STRING_SIZE).GotString? <==> |s| < 4096
    ensures WithinLimits(LogU(s)) <==> |s| < 4096
    ensures Decode(Encode(Str(s)) + tail, 0, READ_VALUE_NOLIMIT).Ok?
  {
    hide Decode, Encode, DecodeString, EncodeString;
    RoundTrip(Str(s), tail, 0, READ_VALUE);
    RoundTrip(Str(s), tail, 0, READ_VALUE_NOLIMIT);
    StringRoundTrip(s, tail, MAX_STRING_SIZE);
  }

  /** The parent takes an array while it and the arrays completed before it have less than 1024 elements together, the
      child while they have less than INT_MAX. */
  lemma LengthLimit(length: nat, count: nat)
    ensures Refused(length, count, READ_VALUE) <==> length + count >= 1024
    ensures Refused(length, count, READ_VALUE_NOLIMIT) <==> length + count >= 0x7fff_ffff
  {
  }

  /** What the reader counts are the elements of all arrays in the value. */
  lemma {:induction false} ElementsAreCounted(elems: seq<Value>, more: seq<Value>, v: Value)
    ensures !v.Array? ==> Total(v) == 0
    ensures Total(Array([])) == 0 && Total(Array([v])) == 1 + Total(v)
    ensures Total(Array(elems + more)) == Total(Array(elems)) + Total(Array(more))
    decreases |elems|
  {
    hide Total;
    TotalOf(v, elems + more);
    TotalOf(v, elems);
    TotalOf(v, more);
    if elems == [] {
      assert elems + more == more;
    } else {
      TotalOf(v, elems[1..] + more);
      TotalOf(v, elems[1..]);
      assert (elems + more)[1..] == elems[1..] + more;
      ElementsAreCounted(elems[1..], more, v);
    }
  }

  lemma TotalOf(v: Value, elems: seq<Value>)
    ensures !v.Array? ==> Total(v) == 0
    ensures Total(Array(elems)) == |elems| + TotalAll(elems)
    ensures elems != [] ==> TotalAll(elems) == Total(elems[0]) + TotalAll(elems[1..])
    ensures Total(Array([])) == 0 && Total(Array([v])) == 1 + Total(v)
  {
    assert [v][1..] == [];
    assert TotalAll([v]) == Total(v) + TotalAll([]) && TotalAll([]) == 0;
  }

  // ----- Bytes that no writer sends -----

  lemma SignBit(w: Word)
    ensures BytesInt(w) < 0 <==> w[3] >= 0x80
  {
    Pow256Of4();
    assert Unsigned(w) == w[0] + 0x100 * Unsigned(w[1..]);
    assert Unsigned(w[1..]) == w[1] + 0x100 * Unsigned(w[1..][1..]);
    assert w[1..][1..] == w[2..] && w[2..][1..] == w[3..] && w[3..][1..] == [];
    assert Unsigned(w[2..]) == w[2] + 0x100 * Unsigned(w[3..]);
    assert Unsigned(w[3..]) == w[3] + 0x100 * Unsigned([]);
  }

  /** Any other byte than 0 is true, negative lengths of strings and unknown types are refused, and an array of negative
      length is empty. */
  lemma OddBytes(s: seq<byte>, count: nat, lim: Limits)
    requires s != [] && count <= INT_MAX
    ensures s[0] >= 6 ==> Decode(s, count, lim) == Bad
    ensures s[0] == 3 && |s| >= 2 ==> Decode(s, count, lim) == Ok(Boolean(s[1] != 0), 2, count)
    ensures s[0] == 4 && |s| >= 5 && s[4] >= 0x80 ==> Decode(s, count, lim) == Bad
    ensures s[0] == 5 && |s| >= 5 && s[4] >= 0x80 && (lim.maxArray == 0 || count <= lim.maxArray) ==>
              Decode(s, count, lim) == Ok(Array([]), 5, count + BytesInt(s[1..5]))
    ensures ParseFlag(s) == GotUnit(FlagU(s[0] != 0), 1)
  {
    if |s| >= 5 && s[4] >= 0x80 {
      var w := s[1..5];
      assert s[1..][..4] == w && w[3] == s[4];
      SignBit(w);
      hide BytesInt;
      assert DecodeElems(s[5..], BytesInt(w), count, lim) == GotElems([], 0, count);
    }
  }

  /** Until a tag comes, process_callbacks skips what it reads. */
  lemma {:induction false} ParentSkipsJunk(reg: Registry, junk: seq<byte>, data: seq<byte>, events: seq<Event>)
    requires forall i :: 0 <= i < |junk| ==> junk[i] !in {10, 11, 12, 13}
    ensures ServeStream(reg, junk + data, events) == ServeStream(reg, data, events)
    decreases |junk|
  {
    if junk == [] {
      assert junk + data == data;
    } else {
      assert (junk + data)[1..] == junk[1..] + data && (junk + data)[0] == junk[0];
      JunkFrame(reg, junk + data, events);
      ParentSkipsJunk(reg, junk[1..], data, events);
      hide NextFrame;
    }
  }

  lemma JunkFrame(reg: Registry, data: seq<byte>, events: seq<Event>)
    requires data != [] && data[0] !in {10, 11, 12, 13}
    ensures NextFrame(reg, data, events) == Again(1, [], events)
  {
    hide ParseNamed, DecodeString;
  }

  /** child_loop skips a byte that is no command. */
  lemma ChildSkipsJunk<S>(interp: Interp<S>, s: S, data: seq<byte>, fuel: nat)
    requires data != [] && data[0] !in {1, 2, 3, 4, 5}
    ensures CommandStream(interp, s, data, fuel) == Ended(s, [], data[1..])
  {
    hide ParseNamed, DecodeString;
  }
}
