/** Values and their byte encoding: write_value and _read_value of language_proxy.c,
    as functions on byte sequences. */
module Codec {
  import opened Base

  datatype Value =
    | Void
    | Float32(bits: Word)
    | Int32(i: int32)
    | Boolean(b: bool)
    | Str(s: CString)
    | Array(elems: seq<Value>)
    | Function(id: nat)

  /** `maxString` and `maxArray` of _read_value; 0 switches a limit off. */
  datatype Limits = Limits(maxString: nat, maxArray: nat)

  const READ_VALUE := Limits(4096, 1024)
  const READ_VALUE_NOLIMIT := Limits(0, 0)

  /** Array lengths fit the C field `int length`. */
  predicate WellFormed(v: Value)
    decreases v
  {
    v.Array? ==> |v.elems| <= INT_MAX && WellFormedAll(v.elems)
  }

  predicate WellFormedAll(vs: seq<Value>)
    decreases vs
  {
    vs == [] || (WellFormed(vs[0]) && WellFormedAll(vs[1..]))
  }

  predicate FunctionFree(v: Value)
    decreases v
  {
    !v.Function? && (v.Array? ==> FunctionFreeAll(v.elems))
  }

  predicate FunctionFreeAll(vs: seq<Value>)
    decreases vs
  {
    vs == [] || (FunctionFree(vs[0]) && FunctionFreeAll(vs[1..]))
  }

  // ----- Writing -----

  function EncodeString(s: CString): (r: seq<byte>)
    ensures |r| == 4 + |s|
  {
    IntBytes(|s|) + s
  }

  function Encode(v: Value): (r: seq<byte>)
    ensures |r| >= 1
    decreases v
  {
    match v
    case Void => [0]
    case Float32(w) => [1] + w
    case Int32(i) => [2] + IntBytes(i)
    case Boolean(b) => [3, if b then 1 else 0]
    case Str(s) => [4] + EncodeString(s)
    case Array(elems) => [5] + IntBytes(ToInt32(|elems|)) + EncodeAll(elems)
    case Function(_) => [6]
  }

  function EncodeAll(vs: seq<Value>): seq<byte>
    decreases vs
  {
    if vs == [] then [] else Encode(vs[0]) + EncodeAll(vs[1..])
  }

  // ----- Reading -----

  /** What a reader makes of the bytes received so far: it needs more of them, it gives up,
      or it has a result and used the first `n` bytes. */
  datatype StringParse = MoreChars | BadString | GotString(s: CString, n: nat)
  datatype Parse = More | Bad | Ok(v: Value, n: nat, count: int)
  datatype ElemsParse = MoreElems | BadElems | GotElems(vs: seq<Value>, n: nat, count: int)

  function DecodeString(s: seq<byte>, maxString: nat): (p: StringParse)
    ensures p.GotString? ==> 4 <= p.n <= |s| && |p.s| <= p.n - 4
  {
    if |s| < 4 then MoreChars else
      var l := BytesInt(s[..4]);
      if l < 0 || (maxString != 0 && l >= maxString) then BadString
      else if |s| < 4 + l then MoreChars
      else GotString(UntilNul(s[4..4 + l]), 4 + l)
  }

  /** The three length tests made before an array is read. */
  predicate Refused(length: int, count: int, lim: Limits) {
    || (lim.maxArray != 0 && length >= lim.maxArray)
    || length >= INT_MAX - count
    || (lim.maxArray != 0 && length + count >= lim.maxArray)
  }

  function Decode(s: seq<byte>, count: int, lim: Limits): (p: Parse)
    ensures p.Ok? ==> 1 <= p.n <= |s|
    decreases |s|, 0, 1
  {
    if |s| == 0 then More
    else if s[0] == 0 then Ok(Void, 1, count)
    else if s[0] == 1 then (if |s| < 5 then More else Ok(Float32(s[1..5]), 5, count))
    else if s[0] == 2 then (if |s| < 5 then More else Ok(Int32(BytesInt(s[1..5])), 5, count))
    else if s[0] == 3 then (if |s| < 2 then More else Ok(Boolean(s[1] != 0), 2, count))
    else if s[0] == 4 then
      match DecodeString(s[1..], lim.maxString)
      case MoreChars => More
      case BadString => Bad
      case GotString(str, n) => Ok(Str(str), 1 + n, count)
    else if s[0] == 5 then DecodeArray(s, count, lim)
    else Bad
  }

  function DecodeArray(s: seq<byte>, count: int, lim: Limits): (p: Parse)
    requires |s| > 0
    ensures p.Ok? ==> 1 <= p.n <= |s|
    decreases |s|, 0, 0
  {
    if |s| < 5 then More else
      var length := BytesInt(s[1..5]);
      if Refused(length, count, lim) then Bad else
        match DecodeElems(s[5..], length, count, lim)
        case MoreElems => More
        case BadElems => Bad
        case GotElems(vs, n, c) => Ok(Array(vs), 5 + n, c + length)
  }

  /** The loop that reads `k` array elements; none when `k` is not positive. */
  function DecodeElems(s: seq<byte>, k: int, count: int, lim: Limits): (p: ElemsParse)
    ensures p.GotElems? ==> p.n <= |s| && |p.vs| == if k <= 0 then 0 else k
    decreases |s|, 1
  {
    if k <= 0 then GotElems([], 0, count) else
      match Decode(s, count, lim)
      case More => MoreElems
      case Bad => BadElems
      case Ok(v, n, c) =>
        Prepend(v, n, DecodeElems(s[n..], k - 1, c, lim))
  }

  function Prepend(v: Value, n: nat, rest: ElemsParse): ElemsParse {
    match rest
    case GotElems(vs, m, c) => GotElems([v] + vs, n + m, c)
    case _ => rest
  }

  // ----- What the limits mean -----

  /** Number of array elements in a value, at all depths. */
  function Total(v: Value): nat
    decreases v
  {
    if v.Array? then |v.elems| + TotalAll(v.elems) else 0
  }

  function TotalAll(vs: seq<Value>): nat
    decreases vs
  {
    if vs == [] then 0 else Total(vs[0]) + TotalAll(vs[1..])
  }

  /** Every string is short enough and every array, together with the `count` elements of the arrays
      completed before it was begun, is below the limit; enclosing arrays are not yet counted. */
  predicate Admits(v: Value, count: int, lim: Limits)
    decreases v
  {
    match v
    case Str(s) => lim.maxString == 0 || |s| < lim.maxString
    case Array(elems) => !Refused(|elems|, count, lim) && AdmitsAll(elems, count, lim)
    case Function(_) => false
    case _ => true
  }

  predicate AdmitsAll(vs: seq<Value>, count: int, lim: Limits)
    decreases vs
  {
    vs == [] || (Admits(vs[0], count, lim) && AdmitsAll(vs[1..], count + Total(vs[0]), lim))
  }

  // ----- Round trip and exact acceptance -----

  lemma {:induction false} StringRoundTrip(s: CString, tail: seq<byte>, maxString: nat)
    ensures DecodeString(EncodeString(s) + tail, maxString)
         == if maxString != 0 && |s| >= maxString then BadString else GotString(s, 4 + |s|)
  {
    var b := EncodeString(s) + tail;
    assert b[..4] == IntBytes(|s|);
    assert b[4..4 + |s|] == s;
  }

  /** Decoding what was encoded, after which come the bytes of `tail`. */
  predicate ReadsBack(v: Value, tail: seq<byte>, count: int, lim: Limits) {
    Decode(Encode(v) + tail, count, lim)
    == if Admits(v, count, lim) then Ok(v, |Encode(v)|, count + Total(v)) else Bad
  }

  predicate ReadsBackAll(vs: seq<Value>, tail: seq<byte>, count: int, lim: Limits) {
    DecodeElems(EncodeAll(vs) + tail, |vs|, count, lim)
    == if AdmitsAll(vs, count, lim) then GotElems(vs, |EncodeAll(vs)|, count + TotalAll(vs)) else BadElems
  }

  lemma ScalarReadsBack(v: Value, tail: seq<byte>, count: int, lim: Limits)
    requires !v.Str? && !v.Array?
    ensures ReadsBack(v, tail, count, lim)
  {
    hide DecodeArray;
    var b := Encode(v) + tail;
    match v
    case Void =>
    case Float32(w) => assert b[1..5] == w;
    case Int32(i) => assert b[1..5] == IntBytes(i);
    case Boolean(_) =>
    case Function(_) =>
  }

  lemma StringReadsBack(s: CString, tail: seq<byte>, count: int, lim: Limits)
    ensures ReadsBack(Str(s), tail, count, lim)
  {
    hide DecodeArray, EncodeString;
    var b := Encode(Str(s)) + tail;
    StringRoundTrip(s, tail, lim.maxString);
    assert b[1..] == EncodeString(s) + tail;
  }

  lemma ArrayHeaderRead(length: int32, body: seq<byte>, count: int, lim: Limits)
    ensures Decode([5] + IntBytes(length) + body, count, lim)
         == if Refused(length, count, lim) then Bad else
              match DecodeElems(body, length, count, lim)
              case MoreElems => More
              case BadElems => Bad
              case GotElems(vs, n, c) => Ok(Array(vs), 5 + n, c + length)
  {
    var b := [5] + IntBytes(length) + body;
    assert Decode(b, count, lim) == DecodeArray(b, count, lim);
    assert b[1..5] == IntBytes(length);
    assert b[5..] == body;
  }

  lemma ArrayReadsBack(elems: seq<Value>, tail: seq<byte>, count: int, lim: Limits)
    requires |elems| <= INT_MAX && ReadsBackAll(elems, tail, count, lim)
    ensures ReadsBack(Array(elems), tail, count, lim)
  {
    hide Decode, DecodeElems, EncodeAll, AdmitsAll, TotalAll, IntBytes, Refused;
    assert ToInt32(|elems|) == |elems|;
    ArrayHeaderRead(|elems|, EncodeAll(elems) + tail, count, lim);
    Assoc([5] + IntBytes(|elems|), EncodeAll(elems), tail);
  }

  /** Reading back a written value: it is accepted exactly when `Admits` holds, and then yields the value,
      leaves the bytes after it untouched and has counted all its elements. */
  lemma {:induction false} RoundTrip(v: Value, tail: seq<byte>, count: int, lim: Limits)
    requires WellFormed(v)
    ensures Decode(Encode(v) + tail, count, lim)
         == if Admits(v, count, lim) then Ok(v, |Encode(v)|, count + Total(v)) else Bad
    decreases v, 0
  {
    hide Decode, Encode, Admits, Total;
    assert ReadsBack(v, tail, count, lim) by {
      hide ReadsBack;
      if v.Str? {
        StringReadsBack(v.s, tail, count, lim);
      } else if v.Array? {
        RoundTripAll(v.elems, tail, count, lim);
        ArrayReadsBack(v.elems, tail, count, lim);
      } else {
        ScalarReadsBack(v, tail, count, lim);
      }
    }
  }

  /** One turn of the element loop. */
  lemma ElementRead(head: seq<byte>, rest: seq<byte>, k: int, v: Value, count: int, c: int, lim: Limits)
    requires k > 0 && Decode(head + rest, count, lim) == Ok(v, |head|, c)
    ensures DecodeElems(head + rest, k, count, lim) == Prepend(v, |head|, DecodeElems(rest, k - 1, c, lim))
  {
    assert (head + rest)[|head|..] == rest;
  }

  lemma {:induction false} RoundTripAll(vs: seq<Value>, tail: seq<byte>, count: int, lim: Limits)
    requires WellFormedAll(vs)
    ensures ReadsBackAll(vs, tail, count, lim)
    decreases vs, 1
  {
    hide Decode, DecodeArray, Encode, Admits, Total, WellFormed;
    if vs != [] {
      var v, ws := vs[0], vs[1..];
      var head, rest, c := Encode(v), EncodeAll(ws) + tail, count + Total(v);
      RoundTrip(v, rest, count, lim);
      if Admits(v, count, lim) {
        ElementRead(head, rest, |vs|, v, count, c, lim);
        RoundTripAll(ws, tail, c, lim);
      }
      Assoc(head, EncodeAll(ws), tail);
      assert vs == [v] + ws;
    }
  }
}
