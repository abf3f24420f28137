/** Parent and child exchanging whole messages through two queues, and why that simulates the direct
    use of the interpreter. */
module Messages {
  import opened Base
  import opened Codec
  import opened Session
  import opened Frames

  // ----- The parent's and the child's part -----

  /** What the parent is waiting for: nothing, a frame in process_callbacks, the result after RESP_RETURN,
      or the answer to IS_FUNCTION. */
  datatype Parent = Idle | Serving(kind: Kind) | Resulting(kind: Kind) | Asking | Failed(why: Why)

  /** The program's side of the proxy: its position, what it still wants, and what it has seen. */
  datatype Caller = Caller(
    parent: Parent, todo: seq<Request>, results: seq<Reply>, events: seq<Event>, reg: Registry)

  /** The child at the head of child_loop, running the guest, or in proxy_function_call waiting for the reply. */
  datatype Child<!S> = Waiting(s: S) | Running(s: S, kind: Kind) | Awaiting(s: S, kind: Kind)

  /** The parent after it has sent the command. */
  function After(req: Request): Parent {
    match req
    case CompileScript(_) => Serving(Compiling)
    case CallFunction(_, _) => Serving(Calling)
    case IsFunction(_) => Asking
    case _ => Idle
  }

  function Issued(c: Caller): Caller
    requires c.todo != []
  {
    c.(parent := After(c.todo[0]), todo := c.todo[1..], reg := Define(c.reg, c.todo[0]))
  }

  /** The unit is one the parent's position expects. */
  predicate Expects(p: Parent, u: Unit) {
    match p
    case Serving(_) => !u.FlagU? && !u.ValU?
    case Resulting(Compiling) => u.FlagU?
    case Resulting(Calling) => u.ValU?
    case Asking => u.FlagU?
    case _ => false
  }

  /** The parent after reading a unit, and the value it then writes for the child. */
  datatype Service = Service(caller: Caller, reply: Option<Value>)

  function Serve(c: Caller, u: Unit): Service
    requires Expects(c.parent, u)
  {
    match u
    case LogU(msg) => Service(c.(events := c.events + [Logged(msg)]), None)
    case CallU(name, args) => (
      match Invoke(c.reg, c.events, name, args)
      case None => Service(c.(parent := Failed(HostError)), None)
      case Some(ret) => Service(c.(events := c.events + [Called(name, args, ret)]), Some(ret)))
    case ErrorU => Service(c.(parent := Failed(GuestError)), None)
    case ReturnU => Service(c.(parent := Resulting(c.parent.kind)), None)
    case FlagU(b) => Service(c.(parent := Idle, results := c.results + [Flag(b)]), None)
    case ValU(v) => Service(c.(parent := Idle, results := c.results + [Val(v)]), None)
  }

  /** The child after a step of its program, and the units it then writes for the parent. */
  datatype Turn<!S> = Turn(child: Child<S>, units: seq<Unit>)

  /** The child's side of a command. */
  function Obey<S>(interp: Interp<S>, s: S, c: Command): Turn<S> {
    match c
    case ConstantCmd(name, value) => Turn(Waiting(interp.defineConstant(s, name, value)), [])
    case FunctionCmd(name, n) => Turn(Waiting(interp.defineFunction(s, name, n)), [])
    case IsFunctionCmd(name) => Turn(Waiting(s), [FlagU(interp.isFunction(s, name))])
    case CompileCmd(script) => Turn(Running(interp.compile(s, script), Compiling), [])
    case CallCmd(name, args) => Turn(Running(interp.call(s, name, args), Calling), [])
  }

  /** The units that end a compilation or a call. */
  function Ending(kind: Kind, result: Option<Value>): (us: seq<Unit>) {
    match kind
    case Compiling => [ReturnU, FlagU(result.Some?)]
    case Calling =>
      match result
      case None => [ErrorU]
      case Some(v) => [ReturnU, ValU(v)]
  }

  /** The guest acts. */
  function Act<S>(interp: Interp<S>, c: Child<S>): (t: Turn<S>)
    requires c.Running?
    ensures 1 <= |t.units| <= 2 && (|t.units| == 2 ==> !t.units[0].LogU? && !t.units[1].LogU?)
  {
    match interp.act(c.s)
    case Log(msg, next) => Turn(Running(next, c.kind), [LogU(msg)])
    case Callback(name, args, _) => Turn(Awaiting(c.s, c.kind), [CallU(name, args)])
    case Done(result, next) => Turn(Waiting(next), Ending(c.kind, result))
  }

  predicate CanResume<S>(interp: Interp<S>, c: Child<S>) {
    c.Awaiting? && interp.act(c.s).Callback?
  }

  function Resumed<S>(interp: Interp<S>, c: Child<S>, v: Value): Child<S>
    requires CanResume(interp, c)
  {
    Running(interp.act(c.s).resume(v), c.kind)
  }

  // ----- The two of them with message queues -----

  /** `commands` and `reply` are on their way to the child, `units` to the parent. */
  datatype Sys<!S> = Sys(
    caller: Caller, commands: seq<Request>, reply: Option<Value>, units: seq<Unit>, child: Child<S>)

  function Init<S>(s: S, todo: seq<Request>): Sys<S> {
    Sys(Caller(Idle, todo, [], [], map[]), [], None, [], Waiting(s))
  }

  predicate CanIssue<S>(m: Sys<S>) { m.caller.parent.Idle? && m.caller.todo != [] }

  function Issue<S>(m: Sys<S>): Sys<S>
    requires CanIssue(m)
  {
    m.(caller := Issued(m.caller), commands := m.commands + [m.caller.todo[0]])
  }

  predicate CanAccept<S>(m: Sys<S>) { m.child.Waiting? && m.commands != [] }

  function Accept<S>(interp: Interp<S>, m: Sys<S>): Sys<S>
    requires CanAccept(m)
  {
    var t := Obey(interp, m.child.s, ToCommand(m.commands[0]));
    m.(commands := m.commands[1..], child := t.child, units := m.units + t.units)
  }

  predicate CanRun<S>(m: Sys<S>) { m.child.Running? }

  function RunGuest<S>(interp: Interp<S>, m: Sys<S>): Sys<S>
    requires CanRun(m)
  {
    var t := Act(interp, m.child);
    m.(child := t.child, units := m.units + t.units)
  }

  function Resume<S>(interp: Interp<S>, m: Sys<S>): Sys<S>
    requires CanResume(interp, m.child) && m.reply.Some?
  {
    m.(child := Resumed(interp, m.child, m.reply.value), reply := None)
  }

  predicate CanHandle<S>(m: Sys<S>) { m.units != [] && Expects(m.caller.parent, m.units[0]) }

  function Handle<S>(m: Sys<S>): Sys<S>
    requires CanHandle(m)
  {
    var m' := m.(units := m.units[1..]);
    if !WithinLimits(m.units[0]) then m'.(caller := m.caller.(parent := Failed(OverLimit))) else
      var service := Serve(m.caller, m.units[0]);
      m'.(caller := service.caller, reply := if service.reply.Some? then service.reply else m.reply)
  }

  // ----- Simulation -----

  /** Some log lines, and nothing after them. */
  predicate AllLogs(units: seq<Unit>) {
    units == [] || (units[0].LogU? && AllLogs(units[1..]))
  }

  /** Some log lines, then one more unit or two. */
  predicate LogsThen(units: seq<Unit>, end: seq<Unit>)
    requires end != [] && !end[0].LogU?
  {
    units != [] && if units[0].LogU? then LogsThen(units[1..], end) else units == end
  }

  function LogEvents(units: seq<Unit>): seq<Event> {
    if units == [] then []
    else (if units[0].LogU? then [Logged(units[0].msg)] else []) + LogEvents(units[1..])
  }

  predicate AllDefinitions(reqs: seq<Request>) {
    forall i :: 0 <= i < |reqs| ==> !reqs[i].Answered()
  }

  /** Only the last outstanding command may be one that is answered, and the parent then waits for the answer. */
  predicate CommandsMatch(p: Parent, commands: seq<Request>) {
    if p.Idle? then AllDefinitions(commands)
    else commands != [] && AllDefinitions(Front(commands)) && Last(commands).Answered() && p == After(Last(commands))
  }

  function ReplyOf(u: Unit): Reply
    requires u.FlagU? || u.ValU?
  {
    if u.FlagU? then Flag(u.b) else Val(u.v)
  }

  /** What is still to be handled of a finished call, seen from the parent's position, when `last` ends it. */
  predicate EndingUnits(p: Parent, units: seq<Unit>, last: Unit) {
    match p
    case Serving(kind) =>
      || (last == ErrorU && LogsThen(units, [ErrorU]))
      || (Expects(Resulting(kind), last) && LogsThen(units, [ReturnU, last]))
    case Resulting(_) => Expects(p, last) && units == [last]
    case Asking => Expects(p, last) && units == [last]
    case _ => false
  }

  /** Nothing is running. If units are under way they end what the kept session has already finished. */
  ghost predicate AtRest<S>(
    p: Parent, commands: seq<Request>, units: seq<Unit>, results: seq<Reply>, d: Direct<S>, s: S)
  {
    if units == [] then
      CommandsMatch(p, commands) && d.control == Ready(s) && d.results == results
    else
      && commands == [] && EndingUnits(p, units, Last(units))
      && if Last(units) == ErrorU then d.control == Stopped(GuestError) && d.results == results
         else d.control == Ready(s) && d.results == results + [ReplyOf(Last(units))]
  }

  /** The guest is about to act. */
  ghost predicate AtWork<S>(p: Parent, units: seq<Unit>, results: seq<Reply>, d: Direct<S>, s: S, kind: Kind) {
    p == Serving(kind) && AllLogs(units) && d.control == Busy(s, kind) && d.results == results
  }

  /** The guest has called back and has no value yet. */
  ghost predicate AtCallback<S>(
    interp: Interp<S>, p: Parent, units: seq<Unit>, results: seq<Reply>, d: Direct<S>, s: S, kind: Kind)
  {
    && p == Serving(kind) && d.control == Busy(s, kind) && d.results == results
    && interp.act(s).Callback? && LogsThen(units, [CallU(interp.act(s).name, interp.act(s).args)])
  }

  /** The kept session is at the same point of the guest's run; the parent may still have units to handle. */
  ghost predicate Placed<S>(interp: Interp<S>, m: Sys<S>, d: Direct<S>) {
    var c := m.caller;
    match m.child
    case Waiting(s) => m.reply.None? && AtRest(c.parent, m.commands, m.units, c.results, d, s)
    case Running(s, kind) => m.commands == [] && m.reply.None? && AtWork(c.parent, m.units, c.results, d, s, kind)
    case Awaiting(s, kind) =>
      && m.commands == [] && interp.act(s).Callback?
      && match m.reply {
        case None => AtCallback(interp, c.parent, m.units, c.results, d, s, kind)
        case Some(v) => m.units == [] && AtWork(c.parent, [], c.results, d, interp.act(s).resume(v), kind)
      }
  }

  /** What is under way is what the parent has asked for and not yet seen. */
  ghost predicate Accounted<S>(m: Sys<S>, d: Direct<S>) {
    && d.todo == m.commands + m.caller.todo
    && DefineAll(d.reg, m.commands) == m.caller.reg
    && d.events == m.caller.events + LogEvents(m.units)
  }

  ghost predicate InStep<S>(interp: Interp<S>, m: Sys<S>, d: Direct<S>) {
    Accounted(m, d) && Placed(interp, m, d)
  }

  /** After a failure the parent's records are what the kept session shows, and a failure of the guest or of a
      callback is a failure there, too. */
  ghost predicate FailedLike<S>(c: Caller, d: Direct<S>) {
    && c.parent.Failed?
    && c.results <= d.results && c.events <= d.events
    && (c.parent.why == GuestError || c.parent.why == HostError ==>
          d.control == Stopped(c.parent.why) && c.results == d.results && c.events == d.events)
  }

  ghost predicate Sim<S>(interp: Interp<S>, m: Sys<S>, d: Direct<S>) {
    if m.caller.parent.Failed? then FailedLike(m.caller, d) else InStep(interp, m, d)
  }

  lemma SimInit<S>(interp: Interp<S>, s: S, todo: seq<Request>)
    ensures Sim(interp, Init(s, todo), Start(s, todo))
  {
  }

  // ----- The parent issues a request -----

  lemma OneMoreCommand(commands: seq<Request>, req: Request)
    requires AllDefinitions(commands)
    ensures CommandsMatch(After(req), commands + [req])
  {
    assert Front(commands + [req]) == commands;
  }

  lemma SimIssue<S>(interp: Interp<S>, m: Sys<S>, d: Direct<S>)
    requires Sim(interp, m, d) && CanIssue(m)
    ensures Sim(interp, Issue(m), d)
  {
    IssueAccounted(m, d);
    hide Accounted, CommandsMatch, Define, LogsThen, AllLogs;
    assert m.child.Waiting? && m.units == [] && AllDefinitions(m.commands) by { IdlePlace(interp, m, d); }
    OneMoreCommand(m.commands, m.caller.todo[0]);
  }

  lemma IdlePlace<S>(interp: Interp<S>, m: Sys<S>, d: Direct<S>)
    requires Placed(interp, m, d) && m.caller.parent.Idle?
    ensures m.child.Waiting? && m.units == [] && AllDefinitions(m.commands)
  {
    hide LogsThen, AllLogs, AllDefinitions;
  }

  lemma IssueAccounted<S>(m: Sys<S>, d: Direct<S>)
    requires Accounted(m, d) && CanIssue(m)
    ensures Accounted(Issue(m), d)
  {
    hide DefineAll, Define, LogEvents;
    var req, todo := m.caller.todo[0], m.caller.todo;
    DefineAllAppend(d.reg, m.commands, req);
    assert m.commands + todo == (m.commands + [req]) + todo[1..];
  }

  // ----- The child takes up a command -----

  lemma FirstCommand(p: Parent, commands: seq<Request>)
    requires commands != [] && CommandsMatch(p, commands)
    ensures if commands[0].Answered() then commands == [commands[0]] && p == After(commands[0])
            else CommandsMatch(p, commands[1..])
  {
    if !p.Idle? {
      if |commands| == 1 {
        assert commands == [commands[0]];
      } else {
        assert Front(commands)[0] == commands[0];
        assert Front(commands[1..]) == Front(commands)[1..];
      }
    }
  }

  /** The kept session begins the request. */
  lemma SimAccept<S>(interp: Interp<S>, m: Sys<S>, d: Direct<S>)
    requires Sim(interp, m, d) && !m.caller.parent.Failed? && CanAccept(m)
    ensures Sim(interp, Accept(interp, m), KeptStep(interp, d))
  {
    AcceptAccounted(interp, m, d);
    hide Accounted, CommandsMatch, AllDefinitions, Define, LogsThen, AllLogs, LogEvents;
    var req := m.commands[0];
    assert d.todo != [] && d.todo[0] == req by { NextIs(m, d); }
    FirstCommand(m.caller.parent, m.commands);
    assert AllLogs([]) by { NoLogs(); }
    var answer := if req.IsFunction? then [FlagU(interp.isFunction(m.child.s, req.name))] else [];
    assert [] + answer == answer;
    if req.Answered() { assert m.commands[1..] == []; }
  }

  lemma NextIs<S>(m: Sys<S>, d: Direct<S>)
    requires Accounted(m, d) && m.commands != []
    ensures d.todo != [] && d.todo[0] == m.commands[0] && d.todo[1..] == m.commands[1..] + m.caller.todo
  {
  }

  lemma AcceptAccounted<S>(interp: Interp<S>, m: Sys<S>, d: Direct<S>)
    requires Accounted(m, d) && CanAccept(m) && m.units == [] && d.control.Ready?
    ensures Accounted(Accept(interp, m), KeptStep(interp, d))
  {
    hide LogEvents;
    NextIs(m, d);
    NoLogs();
    assert m.commands[0].IsFunction? ==> LogEvents([FlagU(interp.isFunction(m.child.s, m.commands[0].name))]) == [] by {
      if m.commands[0].IsFunction? { LogsOf([FlagU(interp.isFunction(m.child.s, m.commands[0].name))]); }
    }
    var units := Obey(interp, m.child.s, ToCommand(m.commands[0])).units;
    assert m.units + units == units;
  }

  // ----- The guest acts -----

  lemma {:induction false} LogEventsAppend(us: seq<Unit>, vs: seq<Unit>)
    ensures LogEvents(us + vs) == LogEvents(us) + LogEvents(vs)
  {
    if us == [] {
      assert us + vs == vs;
    } else {
      assert (us + vs)[0] == us[0] && (us + vs)[1..] == us[1..] + vs;
      LogEventsAppend(us[1..], vs);
      Assoc(if us[0].LogU? then [Logged(us[0].msg)] else [], LogEvents(us[1..]), LogEvents(vs));
    }
  }

  lemma {:induction false} LogsAppend(us: seq<Unit>, end: seq<Unit>)
    requires AllLogs(us) && end != []
    ensures end[0].LogU? && AllLogs(end) ==> AllLogs(us + end)
    ensures !end[0].LogU? ==> LogsThen(us + end, end)
  {
    if us == [] {
      assert us + end == end;
    } else {
      LogsAppend(us[1..], end);
      assert (us + end)[1..] == us[1..] + end;
    }
  }

  lemma LogsOf(us: seq<Unit>)
    requires 1 <= |us| <= 2 && (|us| == 2 ==> !us[0].LogU? && !us[1].LogU?)
    ensures LogEvents(us) == if us[0].LogU? then [Logged(us[0].msg)] else []
    ensures us[0].LogU? ==> AllLogs(us)
  {
  }

  lemma NoLogs()
    ensures AllLogs([]) && LogEvents([]) == []
  {
  }

  /** So it does in the kept session, except that a callback is only run later. */
  lemma SimRun<S>(interp: Interp<S>, m: Sys<S>, d: Direct<S>)
    requires Sim(interp, m, d) && !m.caller.parent.Failed? && CanRun(m)
    ensures Sim(interp, RunGuest(interp, m), if interp.act(m.child.s).Callback? then d else KeptStep(interp, d))
  {
    RunAccounted(interp, m, d);
    hide Accounted, AllLogs, LogsThen;
    var added := Act(interp, m.child).units;
    LogsOf(added);
    LogsAppend(m.units, added);
    assert Last(m.units + added) == Last(added);
  }

  lemma RunAccounted<S>(interp: Interp<S>, m: Sys<S>, d: Direct<S>)
    requires Accounted(m, d) && CanRun(m) && d.control == Busy(m.child.s, m.child.kind)
    ensures Accounted(RunGuest(interp, m), if interp.act(m.child.s).Callback? then d else KeptStep(interp, d))
  {
    hide LogEvents, DefineAll;
    var added := Act(interp, m.child).units;
    LogEventsAppend(m.units, added);
    LogsOf(added);
    Assoc(m.caller.events, LogEvents(m.units), LogEvents(added));
    assert d.events + [] == d.events;
  }

  lemma SimResume<S>(interp: Interp<S>, m: Sys<S>, d: Direct<S>)
    requires Sim(interp, m, d) && !m.caller.parent.Failed? && CanResume(interp, m.child) && m.reply.Some?
    ensures Sim(interp, Resume(interp, m), d)
  {
    hide AllLogs, LogsThen, LogEvents, DefineAll;
  }

  // ----- The parent handles a unit -----

  lemma LogsThenStep(us: seq<Unit>, end: seq<Unit>)
    requires end != [] && !end[0].LogU? && LogsThen(us, end)
    ensures us != [] && if us[0].LogU? then us[1..] != [] && LogsThen(us[1..], end) else us == end
  {
  }

  /** What is left of a finished call when its first unit has been handled. */
  lemma EndingStep(p: Parent, us: seq<Unit>)
    requires us != [] && EndingUnits(p, us, Last(us))
    ensures match us[0]
            case LogU(_) => us[1..] != [] && Last(us[1..]) == Last(us) && EndingUnits(p, us[1..], Last(us))
            case ReturnU =>
              && p.Serving? && us[1..] == [Last(us)] && Last(us) != ErrorU
              && EndingUnits(Resulting(p.kind), us[1..], Last(us))
            case CallU(_, _) => false
            case _ => us == [us[0]] && us[1..] == []
  {
    hide LogsThen;
    var last := Last(us);
    match p {
    case Serving(kind) =>
      LogsThenStep(us, if last == ErrorU && LogsThen(us, [ErrorU]) then [ErrorU] else [ReturnU, last]);
    case _ =>
    }
  }

  lemma LogEventsStep(us: seq<Unit>)
    requires us != []
    ensures LogEvents(us) == (if us[0].LogU? then [Logged(us[0].msg)] else []) + LogEvents(us[1..])
    ensures AllLogs(us) ==> us[0].LogU? && AllLogs(us[1..])
  {
  }

  /** Only running a callback is a step of the kept session. */
  lemma SimHandle<S>(interp: Interp<S>, m: Sys<S>, d: Direct<S>)
    requires Sim(interp, m, d) && CanHandle(m)
    ensures Sim(interp, Handle(m), if m.units[0].CallU? && WithinLimits(m.units[0]) then KeptStep(interp, d) else d)
  {
    hide WithinLimits;
    if !WithinLimits(m.units[0]) {
      HandleOverLimit(interp, m, d);
    } else if m.units[0].CallU? {
      HandleCall(interp, m, d);
    } else if m.child.Waiting? {
      HandleEnding(interp, m, d);
    } else {
      HandleLog(interp, m, d);
    }
  }

  /** Commands and replies are under way only when units are not. */
  lemma UnitsAlone<S>(interp: Interp<S>, m: Sys<S>, d: Direct<S>)
    requires Placed(interp, m, d) && m.units != []
    ensures m.commands == [] && m.reply.None? && m.caller.results <= d.results
    ensures m.units[0].CallU? ==>
              m.child.Awaiting? && m.units == [CallU(interp.act(m.child.s).name, interp.act(m.child.s).args)]
    ensures !m.child.Waiting? && !m.units[0].CallU? ==> m.units[0].LogU?
  {
    hide LogsThen, AllLogs, EndingUnits;
    match m.child {
    case Waiting(_) => EndingStep(m.caller.parent, m.units);
    case Running(_, _) => LogEventsStep(m.units);
    case Awaiting(s, _) => LogsThenStep(m.units, [CallU(interp.act(s).name, interp.act(s).args)]);
    }
  }

  lemma HandleOverLimit<S>(interp: Interp<S>, m: Sys<S>, d: Direct<S>)
    requires InStep(interp, m, d) && CanHandle(m) && !WithinLimits(m.units[0])
    ensures Sim(interp, Handle(m), d)
  {
    UnitsAlone(interp, m, d);
    hide Placed, WithinLimits, DefineAll, LogEvents;
  }

  /** A unit other than a callback leaves the account right. */
  lemma HandleAccounted<S>(m: Sys<S>, d: Direct<S>)
    requires Accounted(m, d) && CanHandle(m) && WithinLimits(m.units[0]) && !m.units[0].CallU?
    ensures Accounted(Handle(m), d)
  {
    hide LogEvents, WithinLimits, DefineAll;
    LogEventsStep(m.units);
    Assoc(m.caller.events, if m.units[0].LogU? then [Logged(m.units[0].msg)] else [], LogEvents(m.units[1..]));
    assert m.caller.events + [] == m.caller.events;
  }

  lemma HandleLog<S>(interp: Interp<S>, m: Sys<S>, d: Direct<S>)
    requires InStep(interp, m, d) && CanHandle(m) && WithinLimits(m.units[0]) && !m.units[0].CallU? && !m.child.Waiting?
    ensures InStep(interp, Handle(m), d)
  {
    HandleAccounted(m, d);
    UnitsAlone(interp, m, d);
    hide Accounted, WithinLimits, LogsThen, AllLogs, LogEvents;
    LogEventsStep(m.units);
    if m.child.Awaiting? {
      LogsThenStep(m.units, [CallU(interp.act(m.child.s).name, interp.act(m.child.s).args)]);
    }
  }

  lemma HandleEnding<S>(interp: Interp<S>, m: Sys<S>, d: Direct<S>)
    requires InStep(interp, m, d) && CanHandle(m) && WithinLimits(m.units[0]) && !m.units[0].CallU? && m.child.Waiting?
    ensures Sim(interp, Handle(m), d)
  {
    HandleAccounted(m, d);
    UnitsAlone(interp, m, d);
    hide WithinLimits, LogsThen, AllLogs, LogEvents, DefineAll;
    EndingStep(m.caller.parent, m.units);
    NoLogs();
    hide EndingUnits;
  }

  lemma HandleCall<S>(interp: Interp<S>, m: Sys<S>, d: Direct<S>)
    requires InStep(interp, m, d) && CanHandle(m) && WithinLimits(m.units[0]) && m.units[0].CallU?
    ensures Sim(interp, Handle(m), KeptStep(interp, d))
  {
    UnitsAlone(interp, m, d);
    hide WithinLimits, LogsThen, AllLogs, LogEvents, DefineAll;
    LogsOf(m.units);
    NoLogs();
    NoDefinitions(d.reg);
    assert m.units[1..] == [];
    assert d.events == m.caller.events && KeptStep(interp, d).events + [] == KeptStep(interp, d).events;
  }

  lemma NoDefinitions(reg: Registry)
    ensures DefineAll(reg, []) == reg
  {
  }
}
