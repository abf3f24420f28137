/** The parent's functions of language_proxy.c, run against the bytes the child sends. */
module ParentSide {
  import opened Base
  import opened Codec
  import opened Descriptor
  import opened WireIO
  import opened Session
  import opened Frames

  /** One frame: it ends the loop, or has an effect after which the loop goes on. */
  datatype FrameEffect = Stop(ok: bool, n: nat) | Again(n: nat, written: seq<byte>, events: seq<Event>)

  function NextFrame(reg: Registry, data: seq<byte>, events: seq<Event>): (e: FrameEffect)
    ensures e.n <= |data| && (e.Again? ==> e.n > 0)
  {
    match ParseFrame(data)
    case MoreUnit => Stop(false, 0)
    case BadUnit => Stop(false, 0)
    case Junk => Again(1, [], events)
    case GotUnit(u, n) =>
      match u
      case LogU(msg) => Again(n, [], events + [Logged(msg)])
      case CallU(name, args) => (
        match Invoke(reg, events, name, args)
        case None => Stop(false, n)
        case Some(ret) => Again(n, Encode(ret), events + [Called(name, args, ret)]))
      case ReturnU => Stop(true, n)
      case _ => Stop(false, n)
  }

  /** What process_callbacks makes of a stream: whether it meets RESP_RETURN, what is left of the stream then, what it
      has written for the child, and the log lines and callbacks it has seen to. */
  datatype Served = Served(ok: bool, rest: seq<byte>, written: seq<byte>, events: seq<Event>)

  function ServeStream(reg: Registry, data: seq<byte>, events: seq<Event>): Served
    decreases |data|
  {
    match NextFrame(reg, data, events)
    case Stop(ok, n) => Served(ok, data[n..], [], events)
    case Again(n, written, events') =>
      var s := ServeStream(reg, data[n..], events');
      s.(written := written + s.written)
  }

  /** What has been seen to stays seen to. */
  lemma {:induction false} StreamGrows(reg: Registry, data: seq<byte>, events: seq<Event>)
    ensures events <= ServeStream(reg, data, events).events
    decreases |data|
  {
    var e := NextFrame(reg, data, events);
    if e.Again? {
      FrameGrows(reg, data, events);
      hide NextFrame;
      StreamGrows(reg, data[e.n..], e.events);
    }
  }

  lemma FrameGrows(reg: Registry, data: seq<byte>, events: seq<Event>)
    requires NextFrame(reg, data, events).Again?
    ensures events <= NextFrame(reg, data, events).events
  {
    hide ParseFrame;
  }

  /** proxy_internal_t in the parent, with the events its program has seen. */
  class Proxy {
    const w: Writer
    const r: Reader
    const timeout: nat
    var inCall: bool
    var callbacks: Registry
    var events: seq<Event>
    var timedOut: bool

    constructor (w: Writer, r: Reader, timeout: nat)
      ensures this.w == w && this.r == r && this.timeout == timeout
      ensures !inCall && callbacks == map[] && events == [] && !timedOut
    {
      this.w, this.r, this.timeout := w, r, timeout;
      inCall, callbacks, events, timedOut := false, map[], [], false;
    }

    /** define_constant_proxy */
    method DefineConstant(name: CString, value: Value)
      modifies w
      ensures w.sent == old(w.sent) + CommandBytes(ConstantCmd(name, value))
    {
      hide EncodeString, Encode;
      WriteByte(w, DEFINE_CONSTANT);
      WriteString(w, name);
      WriteValue(w, value);
      Concat4(old(w.sent), [DEFINE_CONSTANT], EncodeString(name), Encode(value));
    }

    /** define_function_proxy: the child is told in any case, the first definition stays. */
    method DefineFunction(name: CString, numParams: byte, fn: HostFn)
      modifies w, this`callbacks
      ensures w.sent == old(w.sent) + CommandBytes(FunctionCmd(name, numParams))
      ensures callbacks == if name in old(callbacks) then old(callbacks) else old(callbacks)[name := fn]
    {
      hide EncodeString;
      WriteByte(w, DEFINE_FUNCTION);
      WriteString(w, name);
      WriteByte(w, numParams);
      Concat4(old(w.sent), [DEFINE_FUNCTION], EncodeString(name), [numParams]);
      if name in callbacks {
        return;
      }
      callbacks := callbacks[name := fn];
    }

    /** The case RESP_CALLBACK of process_callbacks, after the tag: the function of that name is called with the
        arguments, and its value goes back. */
    method HandleCallback(time: Timeval) returns (ok: bool)
      modifies w, r, time, this`events
      ensures OnBudget(r, time)
      ensures match ParseNamed([RESP_CALLBACK] + old(r.data), READ_VALUE)
              case GotNamed(name, args, n) => (
                if name !in callbacks || callbacks[name](old(events), args).None? then !ok
                else
                  var ret := callbacks[name](old(events), args).value;
                  && (ok ==> r.data == old(r.data)[n - 1..] && w.sent == old(w.sent) + Encode(ret)
                             && events == old(events) + [Called(name, args, ret)])
                  && (old(r.Calm()) ==> ok))
              case _ => !ok
      ensures !ok ==> w.sent == old(w.sent) && events == old(events)
      ensures ok ==> r.faults == old(r.faults)
      ensures old(r.Calm()) ==> r.Calm()
    {
      hide Decode, DecodeString, Encode, Reader.Calm;
      assert ([RESP_CALLBACK] + old(r.data))[1..] == old(r.data);
      var name := ReadString(r, MAX_STRING_SIZE, time);
      if name.None? {
        return false;
      }
      var count := new Counter();
      ghost var all := [RESP_CALLBACK] + old(r.data);
      assert forall n: nat | 1 + n <= |all| :: all[1 + n..] == old(r.data)[n..];
      var args := ReadValue(r, count, READ_VALUE, time);
      if args.None? {
        return false;
      }
      if name.value !in callbacks {
        return false;
      }
      var ret := callbacks[name.value](events, args.value);
      if ret.None? {
        return false;
      }
      events := events + [Called(name.value, args.value, ret.value)];
      WriteValue(w, ret.value);
      return true;
    }

    /** The case RESP_LOG of process_callbacks, after the tag. */
    method HandleLog(time: Timeval) returns (ok: bool)
      modifies r, time, this`events
      ensures OnBudget(r, time)
      ensures match DecodeString(old(r.data), MAX_STRING_SIZE)
              case GotString(msg, n) =>
                && (ok ==> r.data == old(r.data)[n..] && events == old(events) + [Logged(msg)])
                && (old(r.Calm()) ==> ok)
              case _ => !ok
      ensures !ok ==> events == old(events)
      ensures ok ==> r.faults == old(r.faults)
      ensures old(r.Calm()) ==> r.Calm()
    {
      var msg := ReadString(r, MAX_STRING_SIZE, time);
      if msg.None? {
        return false;
      }
      events := events + [Logged(msg.value)];
      return true;
    }

    /** One turn of the loop in process_callbacks: None to go on, or the value to return. */
    method ServeFrame(time: Timeval) returns (done: Option<bool>)
      modifies w, r, time, this`events
      ensures OnBudget(r, time) && (done != Some(false) ==> r.faults == old(r.faults))
      ensures old(r.Calm()) ==> r.Calm()
      ensures match NextFrame(callbacks, old(r.data), old(events))
              case Stop(ok, n) =>
                && done.Some? && (done.value ==> ok) && (old(r.Calm()) ==> done.value == ok)
                && w.sent == old(w.sent) && events == old(events) && (done.value ==> r.data == old(r.data)[n..])
              case Again(n, written, events') =>
                && done != Some(true) && (old(r.Calm()) ==> done.None?)
                && (if done.None? then
                      r.data == old(r.data)[n..] && w.sent == old(w.sent) + written && events == events'
                    else w.sent == old(w.sent) && events == old(events))
    {
      hide Decode, DecodeString, Encode, ParseNamed, Reader.Calm, WaitsHeeded;
      var tag := new byte[1];
      var read := ReadWithTimeout(r, tag, time);
      if !read {
        return Some(false);
      }
      var resp := tag[0];
      assert old(r.data) == [resp] + r.data && old(r.data)[1..] == r.data;
      assert w.sent + [] == w.sent;
      if resp == RESP_CALLBACK {
        var handled := HandleCallback(time);
        return if handled then None else Some(false);
      } else if resp == RESP_LOG {
        var handled := HandleLog(time);
        return if handled then None else Some(false);
      } else if resp == RESP_ERROR {
        return Some(false);
      } else if resp == RESP_RETURN {
        return Some(true);
      }
      return None;
    }

    /** process_callbacks */
    method ProcessCallbacks(time: Timeval) returns (ok: bool)
      modifies w, r, time, this`events
      ensures OnBudget(r, time) && (ok ==> r.faults == old(r.faults))
      ensures var s := ServeStream(callbacks, old(r.data), old(events));
              && (ok ==> s.ok && r.data == s.rest && w.sent == old(w.sent) + s.written && events == s.events)
              && (old(r.Calm()) ==> r.Calm() && ok == s.ok && w.sent == old(w.sent) + s.written && events == s.events)
              && old(w.sent) <= w.sent <= old(w.sent) + s.written && old(events) <= events <= s.events
    {
      hide NextFrame, Reader.Calm;
      ghost var written: seq<byte> := [];
      ghost var whole := ServeStream(callbacks, r.data, events);
      assert w.sent + [] == w.sent && [] + whole.written == whole.written;
      while true
        invariant OnBudget(r, time) && r.faults == old(r.faults)
        invariant w.sent == old(w.sent) + written && old(events) <= events
        invariant var s := ServeStream(callbacks, r.data, events);
                  whole == s.(written := written + s.written)
        invariant old(r.Calm()) ==> r.Calm()
        decreases |r.data|
      {
        ghost var e := NextFrame(callbacks, r.data, events);
        StreamGrows(callbacks, r.data, events);
        if e.Again? { FrameGrows(callbacks, r.data, events); }
        var done := ServeFrame(time);
        if done.Some? {
          assert written + [] == written;
          return done.value;
        }
        Assoc(old(w.sent), written, e.written);
        Assoc(written, e.written, ServeStream(callbacks, r.data, events).written);
        written := written + e.written;
      }
    }

    /** What compile_script_proxy and call_function_proxy do after writing the command and before reading the result:
        run the callbacks, with `in_call` set. It stays set unless RESP_RETURN comes. */
    method EnterCall(time: Timeval) returns (ok: bool)
      requires time.left == timeout
      modifies w, r, time, this`events, this`inCall, this`timedOut
      ensures OnBudget(r, time) && (old(r.Calm()) ==> r.Calm()) && (ok ==> r.faults == old(r.faults))
      ensures old(inCall) ==> !ok && inCall && r.data == old(r.data) && w.sent == old(w.sent) && events == old(events)
      ensures !old(inCall) ==> inCall == !ok
      ensures var s := ServeStream(callbacks, old(r.data), old(events));
              && (ok ==> s.ok && r.data == s.rest && w.sent == old(w.sent) + s.written && events == s.events)
              && (old(r.Calm()) && !old(inCall) ==>
                    ok == s.ok && w.sent == old(w.sent) + s.written && events == s.events)
              && old(w.sent) <= w.sent <= old(w.sent) + s.written && old(events) <= events <= s.events
      ensures timedOut == (old(timedOut) || (!ok && !old(inCall) && time.left == 0))
    {
      StreamGrows(callbacks, r.data, events);
      if inCall {
        return false;
      }
      inCall := true;
      ok := ProcessCallbacks(time);
      if !ok {
        CheckTime(time);
        return;
      }
      inCall := false;
    }

    method CheckTime(time: Timeval)
      modifies this`timedOut
      ensures timedOut == (old(timedOut) || time.left == 0)
    {
      if time.left == 0 {
        timedOut := true;
      }
    }

    /** How one compile or call may turn out. It never blocks longer than its time, and it sets the time-out flag
        exactly if it gets no result and has used all of it. With a result no read or wait has failed. Once one has
        failed in process_callbacks, `in_call` stays set, and then every later one fails without reading anything. Also
        when it fails, the replies written and the events are the first ones, and without errors and time-outs all, of
        those that the stream determines. */
    twostate predicate CallOutcome(command: seq<byte>, s: Served, answer: UnitParse, new result: Option<Unit>)
      reads this, r, w
    {
      && r.blocked <= old(r.blocked) + timeout && r.unguarded == old(r.unguarded)
      && timedOut == (old(timedOut) || (result.None? && !old(inCall) && r.blocked == old(r.blocked) + timeout))
      && (result.Some? ==> r.faults == old(r.faults))
      && (old(inCall) ==>
            result.None? && inCall && r.data == old(r.data) && w.sent == old(w.sent) + command && events == old(events))
      && (!old(inCall) && inCall ==> result.None?)
      && (!inCall ==> s.ok && events == s.events && w.sent == old(w.sent) + command + s.written)
      && old(w.sent) + command <= w.sent <= old(w.sent) + command + s.written && old(events) <= events <= s.events
      && (result.Some? ==>
            answer.GotUnit? && result.value == answer.u && answer.n <= |s.rest| && r.data == s.rest[answer.n..])
      && (old(r.Calm()) && !old(inCall) ==>
            && inCall == !s.ok && result.Some? == (s.ok && answer.GotUnit?)
            && w.sent == old(w.sent) + command + s.written && events == s.events)
    }

    /** compile_script_proxy; None is a failure to get an answer, which the caller sees as false, too */
    method CompileScript(script: CString) returns (ret: bool, ghost result: Option<Unit>)
      modifies w, r, this`events, this`inCall, this`timedOut
      ensures var s := ServeStream(callbacks, old(r.data), old(events));
              CallOutcome(CommandBytes(CompileCmd(script)), s, ParseFlag(s.rest), result)
      ensures ret == (result == Some(FlagU(true)))
      ensures result.Some? ==> result.value.FlagU?
    {
      hide EncodeString, ServeStream, Reader.Calm, WaitsHeeded;
      WriteByte(w, COMPILE_SCRIPT);
      WriteString(w, script);
      Assoc(old(w.sent), [COMPILE_SCRIPT], EncodeString(script));
      var time := new Timeval(timeout);
      var ok := EnterCall(time);
      if !ok {
        return false, None;
      }
      ghost var rest := r.data;
      var flag := new byte[1];
      ok := ReadWithTimeout(r, flag, time);
      if !ok {
        CheckTime(time);
        return false, None;
      }
      assert rest == [flag[0]] + r.data;
      ret := flag[0] != 0;
      result := Some(FlagU(ret));
    }

    /** call_function_proxy */
    method CallFunction(name: CString, args: Value) returns (ret: Option<Value>, ghost result: Option<Unit>)
      modifies w, r, this`events, this`inCall, this`timedOut
      ensures var s := ServeStream(callbacks, old(r.data), old(events));
              CallOutcome(CommandBytes(CallCmd(name, args)), s, ParseVal(s.rest), result)
      ensures if ret.Some? then result == Some(ValU(ret.value)) else result == None
    {
      hide EncodeString, Encode, Decode, ServeStream, Reader.Calm;
      WriteByte(w, CALL_FUNCTION);
      WriteString(w, name);
      WriteValue(w, args);
      Concat4(old(w.sent), [CALL_FUNCTION], EncodeString(name), Encode(args));
      var time := new Timeval(timeout);
      var ok := EnterCall(time);
      if !ok {
        return None, None;
      }
      var count := new Counter();
      ret := ReadValue(r, count, READ_VALUE, time);
      if ret.None? {
        CheckTime(time);
        return None, None;
      }
      result := Some(ValU(ret.value));
    }

    /** is_function_proxy */
    method IsFunction(name: CString) returns (ret: bool)
      modifies w, r
      ensures w.sent == old(w.sent) + CommandBytes(IsFunctionCmd(name))
      ensures r.blocked <= old(r.blocked) + timeout
      ensures r.unguarded == old(r.unguarded) && (ret ==> r.faults == old(r.faults))
      ensures ret ==> old(r.data) != [] && old(r.data)[0] != 0 && r.data == old(r.data)[1..]
      ensures old(r.Calm()) ==> r.Calm() && ret == (old(r.data) != [] && old(r.data)[0] != 0)
      ensures old(r.Calm()) && old(r.data) != [] ==> r.data == old(r.data)[1..]
    {
      hide EncodeString, Reader.Calm, WaitsHeeded;
      WriteByte(w, IS_FUNCTION);
      WriteString(w, name);
      Assoc(old(w.sent), [IS_FUNCTION], EncodeString(name));
      var time := new Timeval(timeout);
      var flag := new byte[1];
      var ok := ReadWithTimeout(r, flag, time);
      ret := ok && flag[0] != 0;
      assert ok ==> old(r.data) == [flag[0]] + r.data;
    }
  }
}
