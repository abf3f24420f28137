/** Reading and writing strings and values on descriptors: write_value and _read_value of language_proxy.c. */
module WireIO {
  import opened Base
  import opened Codec
  import opened Descriptor

  /** The writing end of a pipe and what has been written on it. */
  class Writer {
    var sent: seq<byte>

    constructor ()
      ensures sent == []
    {
      sent := [];
    }

    /** write(fd, bytes, |bytes|), which the callers take to be complete */
    method Write(bytes: seq<byte>)
      modifies this
      ensures sent == old(sent) + bytes
    {
      sent := sent + bytes;
    }
  }

  /** write_byte */
  method WriteByte(fd: Writer, b: byte)
    modifies fd
    ensures fd.sent == old(fd.sent) + [b]
  {
    fd.Write([b]);
  }

  /** write_string */
  method WriteString(fd: Writer, name: CString)
    modifies fd
    ensures fd.sent == old(fd.sent) + EncodeString(name)
  {
    var l := |name|;
    fd.Write(IntBytes(l));
    fd.Write(name);
  }

  /** write_value */
  method WriteValue(fd: Writer, v: Value)
    modifies fd
    ensures fd.sent == old(fd.sent) + Encode(v)
    decreases v
  {
    hide IntBytes, EncodeString, EncodeAll;
    match v
    case Void => fd.Write([0]);
    case Float32(bits) =>
      fd.Write([1]);
      fd.Write(bits);
      Assoc(old(fd.sent), [1], bits);
    case Int32(i) =>
      fd.Write([2]);
      fd.Write(IntBytes(i));
      Assoc(old(fd.sent), [2], IntBytes(i));
    case Boolean(b) =>
      fd.Write([3]);
      fd.Write([if b then 1 else 0]);
      Assoc(old(fd.sent), [3], [if b then 1 else 0]);
    case Str(s) =>
      fd.Write([4]);
      WriteString(fd, s);
      Assoc(old(fd.sent), [4], EncodeString(s));
    case Array(elems) =>
      var length := ToInt32(|elems|);
      fd.Write([5]);
      fd.Write(IntBytes(length));
      WriteElems(fd, elems);
      Concat4(old(fd.sent), [5], IntBytes(length), EncodeAll(elems));
    case Function(_) => fd.Write([6]);
  }

  /** The loop over the elements in write_value. */
  method WriteElems(fd: Writer, elems: seq<Value>)
    modifies fd
    ensures fd.sent == old(fd.sent) + EncodeAll(elems)
    decreases elems
  {
    hide Encode;
    assert elems[0..] == elems;
    for i := 0 to |elems|
      invariant fd.sent + EncodeAll(elems[i..]) == old(fd.sent) + EncodeAll(elems)
    {
      assert elems[i..][0] == elems[i] && elems[i..][1..] == elems[i + 1..];
      Assoc(fd.sent, Encode(elems[i]), EncodeAll(elems[i + 1..]));
      WriteValue(fd, elems[i]);
    }
    assert fd.sent + [] == fd.sent;
  }

  /** The next `n` bytes are read and taken off the stream, or there is nothing. */
  twostate predicate BytesRead(fd: Reader, n: nat, new r: Option<seq<byte>>)
    reads fd
  {
    && (r.Some? ==> |r.value| == n && old(fd.data) == r.value + fd.data && fd.faults == old(fd.faults))
    && (old(fd.Calm()) ==> fd.Calm() && r.Some? == (|old(fd.data)| >= n))
  }

  /** read_with_timeout into a variable of that size */
  method ReadBytes(fd: Reader, n: nat, timeout: Timeval?) returns (r: Option<seq<byte>>)
    modifies fd, Optional(timeout)
    ensures BytesRead(fd, n, r) && OnBudget(fd, timeout)
  {
    hide WaitsHeeded, Reader.Calm;
    var bytes := new byte[n];
    var ok := ReadWithTimeout(fd, bytes, timeout);
    r := if ok then Some(bytes[..]) else None;
  }

  /** The string at the front of the stream is read and taken off it, or nothing is; without errors it is read
      exactly when it is there and short enough. With a result no call has failed or timed out. */
  twostate predicate StringRead(fd: Reader, maxSize: nat, new r: Option<CString>)
    reads fd
  {
    && (old(fd.Calm()) ==> fd.Calm()) && (r.Some? ==> fd.faults == old(fd.faults))
    && match DecodeString(old(fd.data), maxSize)
       case GotString(s, n) =>
         (r.Some? ==> r.value == s && fd.data == old(fd.data)[n..]) && (old(fd.Calm()) ==> r.Some?)
       case _ => r.None?
  }

  /** read_string */
  method ReadString(fd: Reader, maxSize: nat, timeout: Timeval?) returns (r: Option<CString>)
    modifies fd, Optional(timeout)
    ensures StringRead(fd, maxSize, r) && OnBudget(fd, timeout)
  {
    hide Reader.Calm, BytesInt, UntilNul;
    var head := ReadBytes(fd, 4, timeout);
    if head.None? {
      return None;
    }
    var l := BytesInt(head.value);
    assert old(fd.data)[..4] == head.value && old(fd.data)[4..] == fd.data;
    if l < 0 || (maxSize != 0 && l >= maxSize) {
      return None;
    }
    var s := ReadBytes(fd, l, timeout);
    if s.None? {
      return None;
    }
    assert old(fd.data)[4..4 + l] == s.value && old(fd.data)[4 + l..] == fd.data;
    r := Some(UntilNul(s.value));
  }

  /** `int*count` */
  class Counter {
    var n: int

    constructor ()
      ensures n == 0
    {
      n := 0;
    }
  }

  /** The same for a value; the counter then includes its elements. */
  twostate predicate ValueRead(fd: Reader, count: Counter, lim: Limits, new r: Option<Value>)
    reads fd, count
  {
    && (old(fd.Calm()) ==> fd.Calm()) && (r.Some? ==> fd.faults == old(fd.faults))
    && match Decode(old(fd.data), old(count.n), lim)
       case Ok(v, n, c) =>
         (r.Some? ==> r.value == v && fd.data == old(fd.data)[n..] && count.n == c) && (old(fd.Calm()) ==> r.Some?)
       case _ => r.None?
  }

  /** _read_value. NULL is None. */
  method ReadValue(fd: Reader, count: Counter, lim: Limits, timeout: Timeval?) returns (r: Option<Value>)
    modifies fd, count, Optional(timeout)
    ensures ValueRead(fd, count, lim, r) && OnBudget(fd, timeout)
    decreases |fd.data|, 0
  {
    var tag := ReadBytes(fd, 1, timeout);
    if tag.None? {
      return None;
    }
    var b := tag.value[0];
    assert old(fd.data) == [b] + fd.data;
    if b == 0 {
      r := Some(Void);
    } else if b == 1 || b == 2 {
      var word := ReadBytes(fd, 4, timeout);
      if word.None? {
        return None;
      }
      assert old(fd.data)[1..5] == word.value;
      r := Some(if b == 1 then Float32(word.value) else Int32(BytesInt(word.value)));
    } else if b == 3 {
      var flag := ReadBytes(fd, 1, timeout);
      if flag.None? {
        return None;
      }
      r := Some(Boolean(flag.value[0] != 0));
    } else if b == 4 {
      var s := ReadString(fd, lim.maxString, timeout);
      r := if s.Some? then Some(Str(s.value)) else None;
    } else if b == 5 {
      r := ReadArray(fd, count, lim, timeout);
    } else {
      return None;
    }
  }

  /** The array case of _read_value, after the tag. */
  method ReadArray(fd: Reader, count: Counter, lim: Limits, timeout: Timeval?) returns (r: Option<Value>)
    modifies fd, count, Optional(timeout)
    ensures OnBudget(fd, timeout) && (old(fd.Calm()) ==> fd.Calm()) && (r.Some? ==> fd.faults == old(fd.faults))
    ensures match DecodeArray([5] + old(fd.data), old(count.n), lim)
            case Ok(v, n, c) =>
              && (r.Some? ==> r.value == v && fd.data == old(fd.data)[n - 1..] && count.n == c)
              && (old(fd.Calm()) ==> r.Some?)
            case _ => r.None?
    decreases |fd.data|, 2
  {
    hide Decode, DecodeArray, DecodeElems, BytesInt, Unsigned, Reader.Calm;
    ghost var all := [5] + old(fd.data);
    if |all| < 5 { ArrayCut(all, count.n, lim); }
    var word := ReadBytes(fd, 4, timeout);
    if word.None? {
      return None;
    }
    var length := BytesInt(word.value);
    assert all[1..5] == word.value && all[5..] == fd.data;
    ArrayStep(all, count.n, lim);
    if lim.maxArray != 0 && length >= lim.maxArray {
      return None;
    }
    if length >= INT_MAX - count.n {
      return None;
    }
    if lim.maxArray != 0 && length + count.n >= lim.maxArray {
      return None;
    }
    ghost var read := DecodeElems(fd.data, length, count.n, lim);
    var elems := ReadElems(fd, count, length, lim, timeout);
    if elems.None? {
      return None;
    }
    DropTwice(old(fd.data), 4, read.n);
    count.n := count.n + length;
    r := Some(Array(elems.value));
  }

  lemma ArrayStep(s: seq<byte>, count: int, lim: Limits)
    requires |s| >= 5
    ensures DecodeArray(s, count, lim)
         == if Refused(BytesInt(s[1..5]), count, lim) then Bad else
              match DecodeElems(s[5..], BytesInt(s[1..5]), count, lim)
              case MoreElems => More
              case BadElems => Bad
              case GotElems(vs, n, c) => Ok(Array(vs), 5 + n, c + BytesInt(s[1..5]))
  {
    hide DecodeElems;
  }

  lemma ArrayCut(s: seq<byte>, count: int, lim: Limits)
    requires 0 < |s| < 5
    ensures DecodeArray(s, count, lim) == More
  {
  }

  /** The same for the elements of an array. */
  twostate predicate ElemsRead(fd: Reader, count: Counter, length: int, lim: Limits, new r: Option<seq<Value>>)
    reads fd, count
  {
    && (old(fd.Calm()) ==> fd.Calm()) && (r.Some? ==> fd.faults == old(fd.faults))
    && match DecodeElems(old(fd.data), length, old(count.n), lim)
       case GotElems(vs, n, c) =>
         (r.Some? ==> r.value == vs && fd.data == old(fd.data)[n..] && count.n == c) && (old(fd.Calm()) ==> r.Some?)
       case _ => r.None?
  }

  /** The loop over the elements in _read_value. */
  method ReadElems(fd: Reader, count: Counter, length: int, lim: Limits, timeout: Timeval?)
    returns (r: Option<seq<Value>>)
    modifies fd, count, Optional(timeout)
    ensures ElemsRead(fd, count, length, lim, r) && OnBudget(fd, timeout)
    decreases |fd.data|, 1
  {
    hide Decode, DecodeElems, Reader.Calm;
    ghost var body := fd.data;
    var elems: seq<Value> := [];
    var i := 0;
    ghost var used := 0;
    assert body[0..] == body;
    NothingPrepended(DecodeElems(body, length, count.n, lim));
    while i < length
      invariant 0 <= used <= |body| && fd.data == body[used..]
      invariant DecodeElems(body, length, old(count.n), lim)
             == PrependAll(elems, used, DecodeElems(fd.data, length - i, count.n, lim))
      invariant old(fd.Calm()) ==> fd.Calm()
      invariant OnBudget(fd, timeout) && fd.faults == old(fd.faults)
    {
      ghost var p := Decode(fd.data, count.n, lim);
      ElemsStep(fd.data, length - i, count.n, lim);
      var entry := ReadValue(fd, count, lim, timeout);
      if entry.None? {
        return None;
      }
      assert body[used..][p.n..] == body[used + p.n..];
      PrependMore(elems, used, entry.value, p.n, DecodeElems(fd.data, length - i - 1, count.n, lim));
      used := used + p.n;
      elems := elems + [entry.value];
      i := i + 1;
    }
    ElemsDone(fd.data, length - i, count.n, lim);
    assert elems + [] == elems;
    r := Some(elems);
  }

  lemma ElemsDone(s: seq<byte>, k: int, count: int, lim: Limits)
    requires k <= 0
    ensures DecodeElems(s, k, count, lim) == GotElems([], 0, count)
  {
  }

  lemma NothingPrepended(p: ElemsParse)
    ensures PrependAll([], 0, p) == p
  {
    if p.GotElems? { assert [] + p.vs == p.vs; }
  }

  function PrependAll(vs: seq<Value>, n: nat, rest: ElemsParse): ElemsParse {
    match rest
    case GotElems(ws, m, c) => GotElems(vs + ws, n + m, c)
    case _ => rest
  }

  /** The rest of the element loop after one element. */
  function ElemsFrom(p: Parse, s: seq<byte>, k: int, lim: Limits): ElemsParse
    requires p.Ok? ==> p.n <= |s|
  {
    match p
    case More => MoreElems
    case Bad => BadElems
    case Ok(v, n, c) => Prepend(v, n, DecodeElems(s[n..], k - 1, c, lim))
  }

  lemma ElemsStep(s: seq<byte>, k: int, count: int, lim: Limits)
    requires k > 0
    ensures DecodeElems(s, k, count, lim) == ElemsFrom(Decode(s, count, lim), s, k, lim)
  {
    hide Decode;
  }

  lemma PrependMore(vs: seq<Value>, n: nat, v: Value, m: nat, rest: ElemsParse)
    ensures PrependAll(vs, n, Prepend(v, m, rest)) == PrependAll(vs + [v], n + m, rest)
  {
    if rest.GotElems? { Assoc(vs, [v], rest.vs); }
  }
}
