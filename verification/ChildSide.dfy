/** The child's functions of language_proxy.c, run against the bytes the parent sends. */
module ChildSide {
  import opened Base
  import opened Codec
  import opened Descriptor
  import opened WireIO
  import opened Session
  import opened Frames
  import opened Messages
  import opened Pipes

  /** A guest's run given the replies in `data`: the state it leaves, what it has written and what it has not read;
      or it needs more replies or more than the given number of actions. */
  datatype GuestRun<!S> = Ended(s: S, written: seq<byte>, rest: seq<byte>) | Cut

  function WrittenBefore<S>(bytes: seq<byte>, run: GuestRun<S>): GuestRun<S> {
    match run
    case Ended(s, written, rest) => Ended(s, bytes + written, rest)
    case Cut => Cut
  }

  function GuestStream<S>(interp: Interp<S>, child: Child<S>, data: seq<byte>, fuel: nat): GuestRun<S>
    requires child.Running?
    decreases fuel
  {
    if fuel == 0 then Cut else
      var t := Act(interp, child);
      match t.child
      case Waiting(s) => Ended(s, UnitsBytes(t.units), data)
      case Running(_, _) => WrittenBefore(UnitsBytes(t.units), GuestStream(interp, t.child, data, fuel - 1))
      case Awaiting(_, _) =>
        match Decode(data, 0, READ_VALUE_NOLIMIT)
        case Ok(v, n, _) =>
          WrittenBefore(UnitsBytes(t.units), GuestStream(interp, Resumed(interp, t.child, v), data[n..], fuel - 1))
        case _ => Cut
  }

  /** One turn of child_loop on the stream of the parent's bytes. */
  function CommandStream<S>(interp: Interp<S>, s: S, data: seq<byte>, fuel: nat): GuestRun<S> {
    match ParseCommand(data)
    case GotCommand(c, n) =>
      var t := Obey(interp, s, c);
      if t.child.Running? then GuestStream(interp, t.child, data[n..], fuel)
      else Ended(t.child.s, UnitsBytes(t.units), data[n..])
    case JunkCommand => Ended(s, [], data[1..])
    case _ => Cut
  }

  /** The number of actions allowed makes no difference to a run that ends within it. */
  lemma {:induction false} MoreActions<S>(interp: Interp<S>, child: Child<S>, data: seq<byte>, few: nat, many: nat)
    requires child.Running? && few <= many && GuestStream(interp, child, data, few).Ended?
    ensures GuestStream(interp, child, data, many) == GuestStream(interp, child, data, few)
    decreases few
  {
    hide Decode, UnitsBytes;
    var next := Act(interp, child).child;
    match next {
    case Waiting(_) =>
    case Running(_, _) => MoreActions(interp, next, data, few - 1, many - 1);
    case Awaiting(_, _) =>
      var p := Decode(data, 0, READ_VALUE_NOLIMIT);
      if p.Ok? { MoreActions(interp, Resumed(interp, next, p.v), data[p.n..], few - 1, many - 1); }
    }
  }

  /** Nor does it to a turn of child_loop. */
  lemma TurnIgnoresBound<S>(interp: Interp<S>, s: S, data: seq<byte>, few: nat, many: nat)
    requires few <= many && CommandStream(interp, s, data, few).Ended?
    ensures CommandStream(interp, s, data, many) == CommandStream(interp, s, data, few)
  {
    hide ParseCommand, GuestStream;
    var p := ParseCommand(data);
    if p.GotCommand? {
      var t := Obey(interp, s, p.c);
      if t.child.Running? { MoreActions(interp, t.child, data[p.n..], few, many); }
    }
  }

  /** The child with the interpreter it wraps. */
  class ChildProcess<S> {
    const interp: Interp<S>
    const w: Writer
    const r: Reader
    var s: S

    constructor (interp: Interp<S>, s: S, w: Writer, r: Reader)
      ensures this.interp == interp && this.s == s && this.w == w && this.r == r
    {
      this.interp, this.s, this.w, this.r := interp, s, w, r;
    }

    /** sandbox_log */
    method SandboxLog(msg: CString)
      modifies w
      ensures w.sent == old(w.sent) + UnitBytes(LogU(msg))
    {
      hide EncodeString;
      WriteByte(w, RESP_LOG);
      WriteString(w, msg);
      Assoc(old(w.sent), [RESP_LOG], EncodeString(msg));
    }

    /** proxy_function_call: the callback goes out, its value comes back. */
    method ProxyFunctionCall(name: CString, args: Value) returns (ret: Option<Value>)
      modifies w, r
      ensures w.sent == old(w.sent) + UnitBytes(CallU(name, args))
      ensures old(r.Calm()) ==> r.Calm()
      ensures match Decode(old(r.data), 0, READ_VALUE_NOLIMIT)
              case Ok(v, n, _) =>
                (ret.Some? ==> ret.value == v && r.data == old(r.data)[n..]) && (old(r.Calm()) ==> ret.Some?)
              case _ => ret.None?
    {
      hide EncodeString, Encode, Decode, Reader.Calm;
      WriteByte(w, RESP_CALLBACK);
      WriteString(w, name);
      WriteValue(w, args);
      Concat4(old(w.sent), [RESP_CALLBACK], EncodeString(name), Encode(args));
      var count := new Counter();
      ret := ReadValue(r, count, READ_VALUE_NOLIMIT, null);
    }

    /** Running the guest with `log` and its callbacks set up as in the child, and answering the parent. */
    method RunGuest(kind: Kind, start: S, fuel: nat) returns (ended: bool)
      modifies w, r, this`s
      ensures old(r.Calm()) ==> r.Calm()
      ensures match GuestStream(interp, Running(start, kind), old(r.data), fuel)
              case Ended(s', written, rest) =>
                (ended ==> s == s' && w.sent == old(w.sent) + written && r.data == rest) && (old(r.Calm()) ==> ended)
              case Cut => !ended
    {
      hide EncodeString, Encode, Decode, UnitBytes, UnitsBytes, Reader.Calm;
      var guest, left := start, fuel;
      ghost var written: seq<byte> := [];
      ghost var whole := GuestStream(interp, Running(start, kind), r.data, fuel);
      NothingBefore(whole);
      while left > 0
        invariant w.sent == old(w.sent) + written
        invariant whole == WrittenBefore(written, GuestStream(interp, Running(guest, kind), r.data, left))
        invariant old(r.Calm()) ==> r.Calm()
        decreases left
      {
        ghost var t := Act(interp, Running(guest, kind));
        ghost var bytes := UnitsBytes(t.units);
        match interp.act(guest) {
        case Log(msg, next) =>
          SandboxLog(msg);
          OneUnit(LogU(msg));
          guest := next;
        case Callback(name, args, resume) =>
          OneUnit(CallU(name, args));
          var ret := ProxyFunctionCall(name, args);
          if ret.None? {
            return false;
          }
          guest := resume(ret.value);
        case Done(result, next) =>
          s := next;
          Answer(kind, result);
          Assoc(old(w.sent), written, bytes);
          return true;
        }
        Assoc(old(w.sent), written, bytes);
        BeforeTwice(written, bytes, GuestStream(interp, Running(guest, kind), r.data, left - 1));
        written := written + bytes;
        left := left - 1;
      }
      return false;
    }

    /** A name and a value, after the tag. */
    method ReadNamed(ghost tag: byte) returns (got: Option<(CString, Value)>)
      modifies r
      ensures old(r.Calm()) ==> r.Calm()
      ensures match ParseNamed([tag] + old(r.data), READ_VALUE_NOLIMIT)
              case GotNamed(name, v, n) =>
                && (got.Some? ==> got.value == (name, v) && r.data == old(r.data)[n - 1..])
                && (old(r.Calm()) ==> got.Some?)
              case _ => got.None?
    {
      hide Decode, DecodeString, Reader.Calm;
      ghost var data := [tag] + old(r.data);
      assert data[1..] == old(r.data);
      var name := ReadString(r, 0, null);
      if name.None? {
        return None;
      }
      assert forall n: nat | 1 + n <= |data| :: data[1 + n..] == old(r.data)[n..];
      var count := new Counter();
      var value := ReadValue(r, count, READ_VALUE_NOLIMIT, null);
      if value.None? {
        return None;
      }
      got := Some((name.value, value.value));
    }

    /** A name alone, and for DEFINE_FUNCTION a byte, after the tag. */
    method ReadPlain(tag: byte) returns (got: Option<Command>)
      requires tag == DEFINE_FUNCTION || tag == COMPILE_SCRIPT || tag == IS_FUNCTION
      modifies r
      ensures old(r.Calm()) ==> r.Calm()
      ensures match ParseCommand([tag] + old(r.data))
              case GotCommand(c, n) =>
                (got.Some? ==> got.value == c && r.data == old(r.data)[n - 1..]) && (old(r.Calm()) ==> got.Some?)
              case _ => got.None?
    {
      hide DecodeString, ParseNamed, Reader.Calm;
      ghost var data := [tag] + old(r.data);
      assert data[1..] == old(r.data);
      var name := ReadString(r, 0, null);
      if name.None? {
        return None;
      }
      if tag == DEFINE_FUNCTION {
        var numParams := new byte[1];
        ghost var rest := r.data;
        var ok := ReadWithRetry(r, numParams);
        if !ok {
          return None;
        }
        assert rest == [numParams[0]] + r.data;
        got := Some(FunctionCmd(name.value, numParams[0]));
      } else {
        got := Some(if tag == COMPILE_SCRIPT then CompileCmd(name.value) else IsFunctionCmd(name.value));
      }
    }

    /** The reading part of child_loop. Some(None) is an unknown command. */
    method ReadCommand() returns (got: Option<Option<Command>>)
      modifies r
      ensures old(r.Calm()) ==> r.Calm()
      ensures match ParseCommand(old(r.data))
              case GotCommand(c, n) =>
                (got.Some? ==> got.value == Some(c) && r.data == old(r.data)[n..]) && (old(r.Calm()) ==> got.Some?)
              case JunkCommand =>
                (got.Some? ==> got.value == None && r.data == old(r.data)[1..]) && (old(r.Calm()) ==> got.Some?)
              case _ => got.None?
    {
      hide ParseNamed, DecodeString, Reader.Calm;
      var tag := new byte[1];
      var ok := ReadWithRetry(r, tag);
      if !ok {
        return None;
      }
      var command := tag[0];
      assert old(r.data) == [command] + r.data;
      if command == DEFINE_CONSTANT || command == CALL_FUNCTION {
        var named := ReadNamed(command);
        if named.None? {
          return None;
        }
        var (name, v) := named.value;
        got := Some(Some(if command == DEFINE_CONSTANT then ConstantCmd(name, v) else CallCmd(name, v)));
      } else if command == DEFINE_FUNCTION || command == COMPILE_SCRIPT || command == IS_FUNCTION {
        var plain := ReadPlain(command);
        if plain.None? {
          return None;
        }
        got := Some(plain);
      } else {
        got := Some(None);
      }
    }

    /** One turn of child_loop: a command is read and carried out. An unknown one is ignored. */
    method ServeCommand(fuel: nat) returns (alive: bool)
      modifies w, r, this`s
      ensures old(r.Calm()) ==> r.Calm()
      ensures match CommandStream(interp, old(s), old(r.data), fuel)
              case Ended(s', written, rest) =>
                (alive ==> s == s' && w.sent == old(w.sent) + written && r.data == rest) && (old(r.Calm()) ==> alive)
              case Cut => !alive
    {
      hide ParseCommand, UnitBytes, GuestStream, Reader.Calm;
      var got := ReadCommand();
      if got.None? {
        return false;
      }
      assert w.sent + [] == w.sent && UnitsBytes([]) == [];
      alive := true;
      if got.value.Some? {
        match got.value.value {
        case ConstantCmd(name, value) => s := interp.defineConstant(s, name, value);
        case FunctionCmd(name, numParams) => s := interp.defineFunction(s, name, numParams);
        case CompileCmd(script) => alive := RunGuest(Compiling, interp.compile(s, script), fuel);
        case IsFunctionCmd(name) =>
          var ret := interp.isFunction(s, name);
          WriteByte(w, BoolByte(ret));
          OneUnit(FlagU(ret));
          FlagByte(ret);
        case CallCmd(name, args) => alive := RunGuest(Calling, interp.call(s, name, args), fuel);
        }
      }
    }

    /** The end of COMPILE_SCRIPT and CALL_FUNCTION in child_loop. */
    method Answer(kind: Kind, result: Option<Value>)
      modifies w
      ensures w.sent == old(w.sent) + UnitsBytes(Ending(kind, result))
    {
      match kind {
      case Compiling =>
        WriteByte(w, RESP_RETURN);
        WriteByte(w, BoolByte(result.Some?));
      case Calling =>
        if result.Some? {
          WriteByte(w, RESP_RETURN);
          WriteValue(w, result.value);
        } else {
          WriteByte(w, RESP_ERROR);
        }
      }
      EndingBytes(kind, result);
      ghost var answer :=
        if kind == Compiling then [BoolByte(result.Some?)] else if result.Some? then Encode(result.value) else [];
      Assoc(old(w.sent), [RESP_RETURN], answer);
    }
  }

  lemma EndingBytes(kind: Kind, result: Option<Value>)
    ensures UnitsBytes(Ending(kind, result))
         == match kind
            case Compiling => [RESP_RETURN] + [BoolByte(result.Some?)]
            case Calling => if result.Some? then [RESP_RETURN] + Encode(result.value) else [RESP_ERROR]
  {
    hide Encode, UnitsBytes;
    var us := Ending(kind, result);
    if |us| == 2 { TwoUnits(us[0], us[1]); } else { OneUnit(us[0]); }
  }

  lemma TwoUnits(u: Unit, v: Unit)
    ensures UnitsBytes([u, v]) == UnitBytes(u) + UnitBytes(v)
  {
    hide UnitBytes;
    assert [u, v][1..] == [v];
    OneUnit(v);
  }

  lemma OneUnit(u: Unit)
    ensures UnitsBytes([u]) == UnitBytes(u)
  {
    hide UnitBytes;
    assert UnitBytes(u) + [] == UnitBytes(u);
  }

  lemma FlagByte(b: bool)
    ensures UnitBytes(FlagU(b)) == [BoolByte(b)]
  {
  }

  lemma NothingBefore<S>(run: GuestRun<S>)
    ensures WrittenBefore([], run) == run
  {
    if run.Ended? { assert [] + run.written == run.written; }
  }

  lemma BeforeTwice<S>(a: seq<byte>, b: seq<byte>, run: GuestRun<S>)
    ensures WrittenBefore(a, WrittenBefore(b, run)) == WrittenBefore(a + b, run)
  {
    if run.Ended? { Assoc(a, b, run.written); }
  }
}
