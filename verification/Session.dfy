/** What a program using an interpreter asks of it, and what happens when it does so without a sandbox: the direct
    session, which is the reference for the proxy, and the kept session, which differs from it in two respects. */
module Session {
  import opened Base
  import opened Codec

  /** What the guest's run shows to the program: log lines and completed callbacks. */
  datatype Event = Logged(msg: CString) | Called(name: CString, args: Value, ret: Value)

  /** A callback of the program. It may depend on the log lines and callbacks before it; None is a NULL result. */
  type HostFn = (seq<Event>, Value) -> Option<Value>

  type Registry = map<CString, HostFn>

  datatype Request =
    | DefineConstant(name: CString, value: Value)
    | DefineFunction(name: CString, numParams: byte, fn: HostFn)
    | CompileScript(script: CString)
    | IsFunction(name: CString)
    | CallFunction(name: CString, args: Value)
  {
    predicate Answered() {
      !DefineConstant? && !DefineFunction?
    }
  }

  /** What compile_script and is_function (Flag) and call_function (Val, or Null for a guest that failed) return. */
  datatype Reply = Flag(b: bool) | Val(v: Value) | Null

  /** A script is being compiled, or a function called. */
  datatype Kind = Compiling | Calling

  datatype Action<!S> =
    | Log(msg: CString, next: S)
    | Callback(name: CString, args: Value, resume: Value -> S)
    | Done(result: Option<Value>, next: S)

  /** An interpreter: any state space, and any behaviour on it. After `compile` or `call` the guest runs:
      it logs, calls back and is resumed with the value it gets, possibly for ever, or is done with a result.
      compile_script succeeds when there is some result. */
  datatype Interp<!S> = Interp(
    defineConstant: (S, CString, Value) -> S,
    defineFunction: (S, CString, byte) -> S,
    isFunction: (S, CString) -> bool,
    compile: (S, CString) -> S,
    call: (S, CString, Value) -> S,
    act: S -> Action<S>)

  datatype Why = GuestError | HostError | OverLimit | TimedOut

  datatype Control<!S> = Ready(s: S) | Busy(s: S, kind: Kind) | Stopped(why: Why)

  datatype Direct<!S> = Direct(
    control: Control<S>, todo: seq<Request>, results: seq<Reply>, events: seq<Event>, reg: Registry)

  function Start<S>(s: S, todo: seq<Request>): Direct<S> {
    Direct(Ready(s), todo, [], [], map[])
  }

  // ----- The kept session -----

  /** The first definition of a name stays. */
  function Define(reg: Registry, req: Request): Registry {
    if req.DefineFunction? && req.name !in reg then reg[req.name := req.fn] else reg
  }

  function DefineAll(reg: Registry, reqs: seq<Request>): Registry
    decreases |reqs|
  {
    if reqs == [] then reg else DefineAll(Define(reg, reqs[0]), reqs[1..])
  }

  function Invoke(reg: Registry, events: seq<Event>, name: CString, args: Value): Option<Value> {
    if name in reg then reg[name](events, args) else None
  }

  predicate Halted<S>(d: Direct<S>) {
    d.control.Stopped? || (d.control.Ready? && d.todo == [])
  }

  /** One step of the interpreter, for a program that keeps the first definition of every name, as the parent of the
      proxy does, and ends its session with the first NULL. */
  function KeptStep<S>(interp: Interp<S>, d: Direct<S>): Direct<S> {
    if Halted(d) then d
    else if d.control.Ready? then Begin(interp, d)
    else
      match interp.act(d.control.s)
      case Log(msg, next) => d.(control := Busy(next, d.control.kind), events := d.events + [Logged(msg)])
      case Callback(name, args, resume) => (
        match Invoke(d.reg, d.events, name, args)
        case None => d.(control := Stopped(HostError))
        case Some(ret) =>
          d.(control := Busy(resume(ret), d.control.kind), events := d.events + [Called(name, args, ret)]))
      case Done(result, next) =>
        match d.control.kind
        case Compiling => d.(control := Ready(next), results := d.results + [Flag(result.Some?)])
        case Calling =>
          match result
          case None => d.(control := Stopped(GuestError))
          case Some(v) => d.(control := Ready(next), results := d.results + [Val(v)])
  }

  function Begin<S>(interp: Interp<S>, d: Direct<S>): Direct<S>
    requires d.control.Ready? && d.todo != []
  {
    var s, req := d.control.s, d.todo[0];
    var d' := d.(todo := d.todo[1..], reg := Define(d.reg, req));
    match req
    case DefineConstant(name, value) => d'.(control := Ready(interp.defineConstant(s, name, value)))
    case DefineFunction(name, n, _) => d'.(control := Ready(interp.defineFunction(s, name, n)))
    case IsFunction(name) => d'.(results := d.results + [Flag(interp.isFunction(s, name))])
    case CompileScript(script) => d'.(control := Busy(interp.compile(s, script), Compiling))
    case CallFunction(name, args) => d'.(control := Busy(interp.call(s, name, args), Calling))
  }

  function KeptRun<S>(interp: Interp<S>, d: Direct<S>, n: nat): Direct<S>
    decreases n
  {
    if n == 0 then d else KeptRun(interp, KeptStep(interp, d), n - 1)
  }

  lemma {:induction false} DefineAllAppend(reg: Registry, reqs: seq<Request>, req: Request)
    ensures DefineAll(reg, reqs + [req]) == Define(DefineAll(reg, reqs), req)
    decreases |reqs|
  {
    if reqs != [] {
      DefineAllAppend(Define(reg, reqs[0]), reqs[1..], req);
      assert (reqs + [req])[1..] == reqs[1..] + [req];
    }
  }

  // ----- The direct session -----

  /** The interpreter binds the name to the function it is given last. */
  function Redefine(reg: Registry, req: Request): Registry {
    if req.DefineFunction? then reg[req.name := req.fn] else reg
  }

  function RedefineAll(reg: Registry, reqs: seq<Request>): Registry
    decreases |reqs|
  {
    if reqs == [] then reg else RedefineAll(Redefine(reg, reqs[0]), reqs[1..])
  }

  /** One step of the interpreter used directly: the last definition of a name counts, and a call that ends in NULL
      leaves the interpreter ready for the next. */
  function DirectStep<S>(interp: Interp<S>, d: Direct<S>): Direct<S> {
    if Halted(d) then d
    else if d.control.Ready? then Begin(interp, d).(reg := Redefine(d.reg, d.todo[0]))
    else
      var a := interp.act(d.control.s);
      if a.Done? && a.result.None? && d.control.kind.Calling? then
        d.(control := Ready(a.next), results := d.results + [Null])
      else KeptStep(interp, d)
  }

  function DirectRun<S>(interp: Interp<S>, d: Direct<S>, n: nat): Direct<S>
    decreases n
  {
    if n == 0 then d else DirectRun(interp, DirectStep(interp, d), n - 1)
  }
}
