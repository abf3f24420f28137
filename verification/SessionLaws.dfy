/** What a session is, request by request and action by action, without steps and registries: which function a callback
    reaches, what it is called with, and where results come from. The kept and the direct session are exactly this. */
module SessionLaws {
  import opened Base
  import opened Codec
  import opened Session

  // ----- The function of a name -----

  predicate Defines(req: Request, name: CString) {
    req.DefineFunction? && req.name == name
  }

  function FirstDef(reqs: seq<Request>, name: CString): Option<HostFn> {
    if reqs == [] then None
    else if Defines(reqs[0], name) then Some(reqs[0].fn)
    else FirstDef(reqs[1..], name)
  }

  function LastDef(reqs: seq<Request>, name: CString): Option<HostFn> {
    if reqs == [] then None
    else if Defines(Last(reqs), name) then Some(Last(reqs).fn)
    else LastDef(Front(reqs), name)
  }

  /** The function a program gets called after these requests: the first it has given the name in the kept session, the
      last in the direct one. */
  function Given(kept: bool, reqs: seq<Request>, name: CString): Option<HostFn> {
    if kept then FirstDef(reqs, name) else LastDef(reqs, name)
  }

  // ----- The guest's run -----

  /** What the guest does from `s` on until it is at `e`: its log lines, and its callbacks with the arguments it gives
      and the values that the program's functions return for them and the events before. */
  ghost predicate Trace<S>(
    kept: bool, interp: Interp<S>, reqs: seq<Request>, s: S, events: seq<Event>, trace: seq<Event>, e: S)
    decreases |trace|
  {
    if trace == [] then s == e
    else
      match interp.act(s)
      case Log(msg, next) =>
        trace[0] == Logged(msg) && Trace(kept, interp, reqs, next, events + [trace[0]], trace[1..], e)
      case Callback(name, args, resume) =>
        && trace[0].Called? && trace[0].name == name && trace[0].args == args
        && Given(kept, reqs, name).Some? && Given(kept, reqs, name).value(events, args) == Some(trace[0].ret)
        && Trace(kept, interp, reqs, resume(trace[0].ret), events + [trace[0]], trace[1..], e)
      case Done(_, _) => false
  }

  /** The guest calls a function that there is not, or one that fails. */
  ghost predicate CallbackFails<S>(kept: bool, interp: Interp<S>, reqs: seq<Request>, s: S, events: seq<Event>) {
    && interp.act(s).Callback?
    && var fn := Given(kept, reqs, interp.act(s).name);
      fn.None? || fn.value(events, interp.act(s).args).None?
  }

  // ----- The session -----

  /** One request: the events of the guest's run, the state in which it is done, the state it leaves, and what it
      returns. */
  datatype Play<S> = Play(trace: seq<Event>, last: S, after: S, replies: seq<Reply>)

  predicate Runs(req: Request) {
    req.CompileScript? || req.CallFunction?
  }

  function Entered<S>(interp: Interp<S>, s: S, req: Request): S
    requires Runs(req)
  {
    if req.CompileScript? then interp.compile(s, req.script) else interp.call(s, req.name, req.args)
  }

  /** What the last of these requests does. */
  ghost predicate Performs<S>(
    kept: bool, interp: Interp<S>, reqs: seq<Request>, s: S, events: seq<Event>, p: Play<S>)
    requires reqs != []
  {
    match Last(reqs)
    case DefineConstant(name, value) => p == Play([], s, interp.defineConstant(s, name, value), [])
    case DefineFunction(name, n, _) => p == Play([], s, interp.defineFunction(s, name, n), [])
    case IsFunction(name) => p == Play([], s, s, [Flag(interp.isFunction(s, name))])
    case CompileScript(script) =>
      && Trace(kept, interp, reqs, interp.compile(s, script), events, p.trace, p.last)
      && interp.act(p.last).Done? && p.after == interp.act(p.last).next
      && p.replies == [Flag(interp.act(p.last).result.Some?)]
    case CallFunction(name, args) =>
      && Trace(kept, interp, reqs, interp.call(s, name, args), events, p.trace, p.last)
      && interp.act(p.last).Done? && p.after == interp.act(p.last).next
      && match interp.act(p.last).result
         case Some(v) => p.replies == [Val(v)]
         case None => !kept && p.replies == [Null]
  }

  /** The session so far. */
  ghost predicate Plays<S>(kept: bool, interp: Interp<S>, s: S, todo: seq<Request>, h: seq<Play<S>>)
    decreases |h|
  {
    || h == []
    || (&& |h| <= |todo| && Plays(kept, interp, s, todo, Front(h))
        && Performs(kept, interp, todo[..|h|], EndState(s, Front(h)), Events(Front(h)), Last(h)))
  }

  function EndState<S>(s: S, h: seq<Play<S>>): S {
    if h == [] then s else Last(h).after
  }

  function Events<S>(h: seq<Play<S>>): seq<Event> {
    if h == [] then [] else Events(Front(h)) + Last(h).trace
  }

  function Replies<S>(h: seq<Play<S>>): seq<Reply> {
    if h == [] then [] else Replies(Front(h)) + Last(h).replies
  }

  // ----- The sessions of steps -----

  function Step<S>(kept: bool, interp: Interp<S>, d: Direct<S>): Direct<S> {
    if kept then KeptStep(interp, d) else DirectStep(interp, d)
  }

  function Run<S>(kept: bool, interp: Interp<S>, d: Direct<S>, n: nat): Direct<S> {
    if kept then KeptRun(interp, d, n) else DirectRun(interp, d, n)
  }

  lemma {:induction false} RunNext<S>(kept: bool, interp: Interp<S>, d: Direct<S>, n: nat)
    ensures Run(kept, interp, d, n + 1) == Step(kept, interp, Run(kept, interp, d, n))
    decreases n
  {
    hide KeptStep, DirectStep;
    if n > 0 {
      RunNext(kept, interp, Step(kept, interp, d), n - 1);
    } else {
      RunOne(kept, interp, d);
    }
  }

  lemma RunOne<S>(kept: bool, interp: Interp<S>, d: Direct<S>)
    ensures Run(kept, interp, d, 0) == d && Run(kept, interp, d, 1) == Step(kept, interp, d)
  {
    hide KeptStep, DirectStep;
    assert KeptRun(interp, d, 1) == KeptRun(interp, KeptStep(interp, d), 0);
    assert DirectRun(interp, d, 1) == DirectRun(interp, DirectStep(interp, d), 0);
  }

  /** The registry has the functions that the names have been given. */
  ghost predicate Registered(kept: bool, reqs: seq<Request>, reg: Registry) {
    forall name: CString ::
      Given(kept, reqs, name) == if name in reg then Some(reg[name]) else None
  }

  /** Where a session is: between requests, in one, or stopped in one. */
  ghost predicate IsAt<S>(
    kept: bool, interp: Interp<S>, s: S, todo: seq<Request>, d: Direct<S>, h: seq<Play<S>>, trace: seq<Event>, t: S)
  {
    && Plays(kept, interp, s, todo, h) && |h| <= |todo| && d.results == Replies(h)
    && if d.control.Ready? then
         d.control.s == t == EndState(s, h) && d.events == Events(h) && d.todo == todo[|h|..] && trace == []
       else
         && |h| < |todo| && d.todo == todo[|h| + 1..] && Runs(todo[|h|])
         && d.events == Events(h) + trace
         && Trace(kept, interp, todo[..|h| + 1], Entered(interp, EndState(s, h), todo[|h|]), Events(h), trace, t)
         && match d.control
            case Busy(u, kind) => u == t && kind == if todo[|h|].CompileScript? then Compiling else Calling
            case Stopped(why) =>
              if why == HostError then CallbackFails(kept, interp, todo[..|h| + 1], t, d.events)
              else
                && why == GuestError && kept && todo[|h|].CallFunction?
                && interp.act(t).Done? && interp.act(t).result.None?
  }

  // ----- Steps play the session -----

  lemma {:induction false} FirstDefNext(reqs: seq<Request>, req: Request, name: CString)
    ensures FirstDef(reqs + [req], name)
         == if FirstDef(reqs, name).Some? then FirstDef(reqs, name)
            else if Defines(req, name) then Some(req.fn) else None
  {
    if reqs == [] {
      assert (reqs + [req])[1..] == [];
    } else {
      assert (reqs + [req])[1..] == reqs[1..] + [req];
      FirstDefNext(reqs[1..], req, name);
    }
  }

  lemma RegisteredNext(kept: bool, reqs: seq<Request>, reg: Registry, req: Request)
    requires Registered(kept, reqs, reg)
    ensures Registered(kept, reqs + [req], if kept then Define(reg, req) else Redefine(reg, req))
  {
    var next := if kept then Define(reg, req) else Redefine(reg, req);
    forall name: CString
      ensures Given(kept, reqs + [req], name) == if name in next then Some(next[name]) else None
    {
      assert Given(kept, reqs, name) == if name in reg then Some(reg[name]) else None;
      FirstDefNext(reqs, req, name);
      assert Front(reqs + [req]) == reqs;
    }
  }

  /** One more action. */
  ghost predicate Does<S>(
    kept: bool, interp: Interp<S>, reqs: seq<Request>, s: S, events: seq<Event>, event: Event, e: S)
  {
    match interp.act(s)
    case Log(msg, next) => event == Logged(msg) && e == next
    case Callback(name, args, resume) =>
      && event.Called? && event.name == name && event.args == args && e == resume(event.ret)
      && Given(kept, reqs, name).Some? && Given(kept, reqs, name).value(events, args) == Some(event.ret)
    case Done(_, _) => false
  }

  lemma {:induction false} TraceNext<S>(
    kept: bool, interp: Interp<S>, reqs: seq<Request>, s: S, events: seq<Event>, trace: seq<Event>, e: S,
    event: Event, e': S)
    requires Trace(kept, interp, reqs, s, events, trace, e)
    requires Does(kept, interp, reqs, e, events + trace, event, e')
    ensures Trace(kept, interp, reqs, s, events, trace + [event], e')
    decreases |trace|
  {
    hide Given;
    if trace == [] {
      assert events + trace == events;
      assert (trace + [event])[1..] == [];
      assert Trace(kept, interp, reqs, e', events + [event], [], e');
    } else {
      assert (trace + [event])[1..] == trace[1..] + [event];
      Assoc(events, [trace[0]], trace[1..]);
      assert [trace[0]] + trace[1..] == trace;
      var next := if interp.act(s).Log? then interp.act(s).next else interp.act(s).resume(trace[0].ret);
      TraceNext(kept, interp, reqs, next, events + [trace[0]], trace[1..], e, event, e');
    }
  }

  lemma PlaysNext<S>(kept: bool, interp: Interp<S>, s: S, todo: seq<Request>, h: seq<Play<S>>, p: Play<S>)
    requires Plays(kept, interp, s, todo, h) && |h| < |todo|
    requires Performs(kept, interp, todo[..|h| + 1], EndState(s, h), Events(h), p)
    ensures Plays(kept, interp, s, todo, h + [p])
    ensures EndState(s, h + [p]) == p.after && Events(h + [p]) == Events(h) + p.trace
    ensures Replies(h + [p]) == Replies(h) + p.replies
  {
    hide Performs;
    assert Front(h + [p]) == h && Last(h + [p]) == p;
  }

  /** The requests that have been begun. */
  function Begun(todo: seq<Request>, rest: seq<Request>): seq<Request>
    requires |rest| <= |todo|
  {
    todo[..|todo| - |rest|]
  }

  lemma StepPlays<S>(
    kept: bool, interp: Interp<S>, s: S, todo: seq<Request>, d: Direct<S>, h: seq<Play<S>>, trace: seq<Event>, t: S)
    returns (h': seq<Play<S>>, trace': seq<Event>, t': S)
    requires IsAt(kept, interp, s, todo, d, h, trace, t) && Registered(kept, Begun(todo, d.todo), d.reg)
    ensures var d' := Step(kept, interp, d);
      && IsAt(kept, interp, s, todo, d', h', trace', t')
      && |d'.todo| <= |todo| && Registered(kept, Begun(todo, d'.todo), d'.reg)
  {
    h', trace', t' := h, trace, t;
    if Halted(d) {
    } else if d.control.Ready? {
      h', trace', t' := BeginPlays(kept, interp, s, todo, d, h);
    } else if interp.act(d.control.s).Done? {
      h', trace', t' := DonePlays(kept, interp, s, todo, d, h, trace);
    } else {
      h', trace', t' := ActionPlays(kept, interp, s, todo, d, h, trace);
    }
  }

  lemma NothingDone<S>(kept: bool, interp: Interp<S>, reqs: seq<Request>, s: S, events: seq<Event>)
    ensures Trace(kept, interp, reqs, s, events, [], s)
  {
  }

  lemma BeginPlays<S>(kept: bool, interp: Interp<S>, s: S, todo: seq<Request>, d: Direct<S>, h: seq<Play<S>>)
    returns (h': seq<Play<S>>, trace': seq<Event>, t': S)
    requires d.control.Ready? && d.todo != []
    requires IsAt(kept, interp, s, todo, d, h, [], d.control.s) && Registered(kept, Begun(todo, d.todo), d.reg)
    ensures var d' := Step(kept, interp, d);
      && IsAt(kept, interp, s, todo, d', h', trace', t')
      && |d'.todo| <= |todo| && Registered(kept, Begun(todo, d'.todo), d'.reg)
  {
    var req := todo[|h|];
    var reqs := todo[..|h| + 1];
    assert d.todo[0] == req && reqs == todo[..|h|] + [req] && d.todo[1..] == todo[|h| + 1..];
    RegisteredNext(kept, todo[..|h|], d.reg, req);
    assert Last(reqs) == req;
    hide Registered, Given, Trace, EndState, Events, Replies;
    trace' := [];
    if Runs(req) {
      h', t' := h, Entered(interp, d.control.s, req);
      assert Trace(kept, interp, reqs, t', d.events, [], t') by { NothingDone(kept, interp, reqs, t', d.events); }
      assert d.events + [] == d.events;
    } else {
      t' := Step(kept, interp, d).control.s;
      var p := Play([], if req.IsFunction? then t' else d.control.s, t',
                    if req.IsFunction? then [Flag(interp.isFunction(t', req.name))] else []);
      PlaysNext(kept, interp, s, todo, h, p);
      h' := h + [p];
    }
  }

  lemma DonePlays<S>(
    kept: bool, interp: Interp<S>, s: S, todo: seq<Request>, d: Direct<S>, h: seq<Play<S>>, trace: seq<Event>)
    returns (h': seq<Play<S>>, trace': seq<Event>, t': S)
    requires d.control.Busy? && interp.act(d.control.s).Done?
    requires IsAt(kept, interp, s, todo, d, h, trace, d.control.s) && Registered(kept, Begun(todo, d.todo), d.reg)
    ensures var d' := Step(kept, interp, d);
      && IsAt(kept, interp, s, todo, d', h', trace', t')
      && |d'.todo| <= |todo| && Registered(kept, Begun(todo, d'.todo), d'.reg)
  {
    hide Trace, Plays, Registered, Given, EndState, Events, Replies;
    var t, d' := d.control.s, Step(kept, interp, d);
    h', trace', t' := h, trace, t;
    if d'.control.Ready? {
      var p := Play(trace, t, interp.act(t).next, d'.results[|d.results|..]);
      assert Last(todo[..|h| + 1]) == todo[|h|];
      PlaysNext(kept, interp, s, todo, h, p);
      h', trace', t' := h + [p], [], p.after;
    }
  }

  lemma ActionPlays<S>(
    kept: bool, interp: Interp<S>, s: S, todo: seq<Request>, d: Direct<S>, h: seq<Play<S>>, trace: seq<Event>)
    returns (h': seq<Play<S>>, trace': seq<Event>, t': S)
    requires d.control.Busy? && !interp.act(d.control.s).Done?
    requires IsAt(kept, interp, s, todo, d, h, trace, d.control.s) && Registered(kept, Begun(todo, d.todo), d.reg)
    ensures var d' := Step(kept, interp, d);
      && IsAt(kept, interp, s, todo, d', h', trace', t')
      && |d'.todo| <= |todo| && Registered(kept, Begun(todo, d'.todo), d'.reg)
  {
    hide Trace, Plays, EndState, Events, Replies;
    var t, d' := d.control.s, Step(kept, interp, d);
    var reqs := todo[..|h| + 1];
    assert reqs == Begun(todo, d.todo);
    h', trace', t' := h, trace, t;
    if d'.control.Busy? {
      var event := Last(d'.events);
      t' := d'.control.s;
      TraceNext(kept, interp, reqs, Entered(interp, EndState(s, h), todo[|h|]), Events(h), trace, t, event, t');
      trace' := trace + [event];
      Assoc(Events(h), trace, [event]);
    }
  }

  // ----- The sessions are what is played -----

  lemma NothingYet<S>(kept: bool, interp: Interp<S>, s: S, todo: seq<Request>)
    ensures var d := Start(s, todo);
      IsAt(kept, interp, s, todo, d, [], [], s) && |d.todo| <= |todo| && Registered(kept, Begun(todo, d.todo), d.reg)
  {
    assert todo[0..] == todo;
  }

  lemma {:induction false} RunPlays<S>(kept: bool, interp: Interp<S>, s: S, todo: seq<Request>, n: nat)
    returns (h: seq<Play<S>>, trace: seq<Event>, t: S)
    ensures var d := Run(kept, interp, Start(s, todo), n);
      && IsAt(kept, interp, s, todo, d, h, trace, t)
      && |d.todo| <= |todo| && Registered(kept, Begun(todo, d.todo), d.reg)
    decreases n
  {
    hide *;
    if n == 0 {
      h, trace, t := [], [], s;
      RunOne(kept, interp, Start(s, todo));
      NothingYet(kept, interp, s, todo);
    } else {
      h, trace, t := RunPlays(kept, interp, s, todo, n - 1);
      RunNext(kept, interp, Start(s, todo), n - 1);
      h, trace, t := StepPlays(kept, interp, s, todo, Run(kept, interp, Start(s, todo), n - 1), h, trace, t);
    }
  }

  /** At every point of the kept and of the direct session, what has been returned and what has happened are what is
      played, and the session is between requests, in one, or stopped by a failing callback or, the kept one, by
      NULL. */
  lemma SessionIsPlayed<S>(kept: bool, interp: Interp<S>, s: S, todo: seq<Request>, n: nat)
    returns (h: seq<Play<S>>, trace: seq<Event>, t: S)
    ensures IsAt(kept, interp, s, todo, Run(kept, interp, Start(s, todo), n), h, trace, t)
  {
    h, trace, t := RunPlays(kept, interp, s, todo, n);
  }

  /** A callback stops the session exactly if it fails. */
  lemma HostErrorIsFailing<S>(kept: bool, interp: Interp<S>, s: S, todo: seq<Request>, n: nat)
    requires Run(kept, interp, Start(s, todo), n).control.Busy?
    ensures var d := Run(kept, interp, Start(s, todo), n);
      && |d.todo| < |todo|
      && (Step(kept, interp, d).control == Stopped(HostError) <==>
            CallbackFails(kept, interp, todo[..|todo| - |d.todo|], d.control.s, d.events))
  {
    var h, trace, t := RunPlays(kept, interp, s, todo, n);
    hide Run, Trace, Plays;
  }

  // ----- What callbacks are called with -----

  lemma StepAddsEvent<S>(kept: bool, interp: Interp<S>, d: Direct<S>, reqs: seq<Request>)
    requires Registered(kept, reqs, d.reg)
    ensures var d' := Step(kept, interp, d);
      || d'.events == d.events
      || (&& d'.events == d.events + [Last(d'.events)]
          && d.control.Busy? && var a := interp.act(d.control.s);
             && !a.Done?
             && match Last(d'.events)
                case Logged(msg) => a.Log? && a.msg == msg
                case Called(name, args, ret) =>
                  && a.Callback? && a.name == name && a.args == args
                  && Given(kept, reqs, name).Some? && Given(kept, reqs, name).value(d.events, args) == Some(ret))
  {
  }

  /** Every callback that has been made has gone to a function that its name had been given by then, with the arguments
      recorded and the events before it, and that function has returned the value recorded. */
  lemma {:induction false} CallbacksAreAnswered<S>(
    kept: bool, interp: Interp<S>, s: S, todo: seq<Request>, n: nat, i: nat) returns (k: nat)
    requires i < |Run(kept, interp, Start(s, todo), n).events|
    requires Run(kept, interp, Start(s, todo), n).events[i].Called?
    ensures var events := Run(kept, interp, Start(s, todo), n).events;
      && k <= |todo| && Given(kept, todo[..k], events[i].name).Some?
      && Given(kept, todo[..k], events[i].name).value(events[..i], events[i].args) == Some(events[i].ret)
    decreases n
  {
    if n == 0 {
      RunOne(kept, interp, Start(s, todo));
    } else {
      var d := Run(kept, interp, Start(s, todo), n - 1);
      var h, trace, t := RunPlays(kept, interp, s, todo, n - 1);
      hide Run, Step, Given, Trace, Plays, IsAt, Registered;
      RunNext(kept, interp, Start(s, todo), n - 1);
      StepAddsEvent(kept, interp, d, Begun(todo, d.todo));
      var d' := Step(kept, interp, d);
      if i < |d.events| {
        assert d'.events[..i] == d.events[..i] && d'.events[i] == d.events[i];
        k := CallbacksAreAnswered(kept, interp, s, todo, n - 1, i);
      } else {
        assert d'.events[..i] == d.events;
        k := |todo| - |d.todo|;
      }
    }
  }

  lemma {:induction false} FirstStays(reqs: seq<Request>, k: nat, name: CString)
    requires k <= |reqs| && FirstDef(reqs[..k], name).Some?
    ensures FirstDef(reqs, name) == FirstDef(reqs[..k], name)
  {
    assert reqs[..k][1..] == reqs[1..][..k - 1];
    if !Defines(reqs[0], name) { FirstStays(reqs[1..], k - 1, name); }
  }

  /** In the kept session that is the first function the session gives the name. */
  ghost predicate AnsweredByFirst(todo: seq<Request>, events: seq<Event>) {
    forall i :: 0 <= i < |events| && events[i].Called? ==>
      var fn := FirstDef(todo, events[i].name);
      fn.Some? && fn.value(events[..i], events[i].args) == Some(events[i].ret)
  }

  lemma KeptCallbacksAreAnswered<S>(interp: Interp<S>, s: S, todo: seq<Request>, n: nat)
    ensures AnsweredByFirst(todo, KeptRun(interp, Start(s, todo), n).events)
  {
    hide KeptRun, FirstDef;
    var events := KeptRun(interp, Start(s, todo), n).events;
    forall i | 0 <= i < |events| && events[i].Called?
      ensures FirstDef(todo, events[i].name).Some?
      ensures FirstDef(todo, events[i].name).value(events[..i], events[i].args) == Some(events[i].ret)
    {
      var k := CallbacksAreAnswered(true, interp, s, todo, n, i);
      FirstStays(todo, k, events[i].name);
    }
  }

  // ----- Everything that can be played is a session -----

  lemma {:induction false} RunSplit<S>(kept: bool, interp: Interp<S>, d: Direct<S>, i: nat, j: nat)
    ensures Run(kept, interp, d, i + j) == Run(kept, interp, Run(kept, interp, d, i), j)
    decreases j
  {
    hide Run, Step;
    if j == 0 {
      RunOne(kept, interp, Run(kept, interp, d, i));
    } else {
      RunSplit(kept, interp, d, i, j - 1);
      RunNext(kept, interp, d, i + j - 1);
      RunNext(kept, interp, Run(kept, interp, d, i), j - 1);
    }
  }

  /** The state of a session that is busy with the guest at `t`. */
  function BusyAt<S>(interp: Interp<S>, d: Direct<S>, trace: seq<Event>, t: S): Direct<S>
    requires d.control.Busy?
  {
    d.(control := Busy(t, d.control.kind), events := d.events + trace)
  }

  lemma {:induction false} TraceRuns<S>(
    kept: bool, interp: Interp<S>, reqs: seq<Request>, d: Direct<S>, trace: seq<Event>, t: S)
    requires d.control.Busy? && Registered(kept, reqs, d.reg)
    requires Trace(kept, interp, reqs, d.control.s, d.events, trace, t)
    ensures Run(kept, interp, d, |trace|) == BusyAt(interp, d, trace, t)
    decreases |trace|
  {
    if trace == [] {
      RunOne(kept, interp, d);
      assert d.events + trace == d.events;
    } else {
      var d' := ActionRuns(kept, interp, reqs, d, trace, t);
      hide *;
      TraceRuns(kept, interp, reqs, d', trace[1..], t);
      RunSplit(kept, interp, d, 1, |trace| - 1);
      RunOne(kept, interp, d);
      RestRuns(interp, d, d', trace, t);
    }
  }

  lemma ActionRuns<S>(
    kept: bool, interp: Interp<S>, reqs: seq<Request>, d: Direct<S>, trace: seq<Event>, t: S) returns (d': Direct<S>)
    requires d.control.Busy? && Registered(kept, reqs, d.reg) && trace != []
    requires Trace(kept, interp, reqs, d.control.s, d.events, trace, t)
    ensures d' == Step(kept, interp, d) && d'.control.Busy? && d' == BusyAt(interp, d, [trace[0]], d'.control.s)
    ensures Registered(kept, reqs, d'.reg) && Trace(kept, interp, reqs, d'.control.s, d'.events, trace[1..], t)
  {
    d' := Step(kept, interp, d);
    assert Given(kept, reqs, if interp.act(d.control.s).Callback? then interp.act(d.control.s).name else []).Some?
           || !interp.act(d.control.s).Callback?;
  }

  lemma RestRuns<S>(interp: Interp<S>, d: Direct<S>, d': Direct<S>, trace: seq<Event>, t: S)
    requires d.control.Busy? && trace != [] && d'.control.Busy? && d' == BusyAt(interp, d, [trace[0]], d'.control.s)
    ensures BusyAt(interp, d', trace[1..], t) == BusyAt(interp, d, trace, t)
  {
    Assoc(d.events, [trace[0]], trace[1..]);
    assert [trace[0]] + trace[1..] == trace;
  }

  /** The session with these plays behind it. */
  ghost predicate Between<S>(
    kept: bool, interp: Interp<S>, s: S, todo: seq<Request>, h: seq<Play<S>>, d: Direct<S>)
  {
    && |h| <= |todo| && d.control == Ready(EndState(s, h)) && d.todo == todo[|h|..]
    && d.results == Replies(h) && d.events == Events(h) && Registered(kept, todo[..|h|], d.reg)
  }

  lemma LastPlay<S>(kept: bool, interp: Interp<S>, s: S, todo: seq<Request>, h: seq<Play<S>>)
    requires Plays(kept, interp, s, todo, h) && h != []
    ensures |h| <= |todo| && |Front(h)| + 1 == |h| && Front(h) + [Last(h)] == h
    ensures Plays(kept, interp, s, todo, Front(h))
    ensures Performs(kept, interp, todo[..|Front(h)| + 1], EndState(s, Front(h)), Events(Front(h)), Last(h))
  {
    hide Performs, Trace, EndState, Events;
  }

  lemma NothingPlayed<S>(kept: bool, interp: Interp<S>, s: S, todo: seq<Request>)
    ensures Between(kept, interp, s, todo, [], Run(kept, interp, Start(s, todo), 0))
  {
    RunOne(kept, interp, Start(s, todo));
    assert todo[0..] == todo && todo[..0] == [];
  }

  /** Whatever can be played is what the session does: it gets between the same requests, and into the next one. */
  lemma {:induction false} PlayedIsSession<S>(
    kept: bool, interp: Interp<S>, s: S, todo: seq<Request>, h: seq<Play<S>>) returns (n: nat)
    requires Plays(kept, interp, s, todo, h)
    ensures Between(kept, interp, s, todo, h, Run(kept, interp, Start(s, todo), n))
    decreases |h|
  {
    hide *;
    if h == [] {
      n := 0;
      NothingPlayed(kept, interp, s, todo);
    } else {
      LastPlay(kept, interp, s, todo, h);
      n := PlayedIsSession(kept, interp, s, todo, Front(h));
      var d := Run(kept, interp, Start(s, todo), n);
      var more := PlayRuns(kept, interp, s, todo, Front(h), d, Last(h));
      RunSplit(kept, interp, Start(s, todo), n, more);
      n := n + more;
    }
  }

  lemma HistoryNext<S>(s: S, h: seq<Play<S>>, p: Play<S>)
    ensures EndState(s, h + [p]) == p.after && Events(h + [p]) == Events(h) + p.trace
    ensures Replies(h + [p]) == Replies(h) + p.replies
  {
    assert Front(h + [p]) == h && Last(h + [p]) == p;
  }

  /** The next request is begun. */
  lemma RequestBegins<S>(kept: bool, interp: Interp<S>, s: S, todo: seq<Request>, h: seq<Play<S>>, d: Direct<S>)
    requires Between(kept, interp, s, todo, h, d) && |h| < |todo|
    ensures var d' := Step(kept, interp, d);
      && d'.todo == todo[|h| + 1..] && d'.events == d.events && Registered(kept, todo[..|h| + 1], d'.reg)
      && (Runs(todo[|h|]) ==> d'.results == d.results && d'.control == EnteredFor(interp, d.control.s, todo[|h|]))
  {
    var req := todo[|h|];
    assert d.todo[0] == req && todo[..|h| + 1] == todo[..|h|] + [req] && d.todo[1..] == todo[|h| + 1..];
    RegisteredNext(kept, todo[..|h|], d.reg, req);
    hide Registered, Given, EndState, Events, Replies;
  }

  function EnteredFor<S>(interp: Interp<S>, s: S, req: Request): Control<S>
    requires Runs(req)
  {
    Busy(Entered(interp, s, req), if req.CompileScript? then Compiling else Calling)
  }

  /** A request for which the guest does not run is done at once. */
  lemma RequestIsDone<S>(
    kept: bool, interp: Interp<S>, s: S, todo: seq<Request>, h: seq<Play<S>>, d: Direct<S>, p: Play<S>)
    requires Between(kept, interp, s, todo, h, d) && |h| < |todo| && !Runs(todo[|h|])
    requires Performs(kept, interp, todo[..|h| + 1], d.control.s, d.events, p)
    ensures var d' := Step(kept, interp, d);
      d'.control == Ready(p.after) && d'.results == d.results + p.replies && p.trace == []
  {
    assert d.todo[0] == todo[|h|] && Last(todo[..|h| + 1]) == todo[|h|];
    hide Registered, Given, EndState, Events, Replies;
  }

  /** The request is done. */
  lemma RequestEnds<S>(
    kept: bool, interp: Interp<S>, reqs: seq<Request>, s: S, events: seq<Event>, p: Play<S>, d: Direct<S>)
    requires reqs != [] && Runs(Last(reqs)) && Performs(kept, interp, reqs, s, events, p)
    requires d.control == Busy(p.last, if Last(reqs).CompileScript? then Compiling else Calling)
    ensures Step(kept, interp, d) == d.(control := Ready(p.after), results := d.results + p.replies)
  {
    hide Trace;
  }

  lemma PlayRuns<S>(
    kept: bool, interp: Interp<S>, s: S, todo: seq<Request>, h: seq<Play<S>>, d: Direct<S>, p: Play<S>)
    returns (n: nat)
    requires Between(kept, interp, s, todo, h, d) && |h| < |todo|
    requires Performs(kept, interp, todo[..|h| + 1], EndState(s, h), Events(h), p)
    ensures Between(kept, interp, s, todo, h + [p], Run(kept, interp, d, n))
  {
    var req, reqs := todo[|h|], todo[..|h| + 1];
    assert Last(reqs) == req;
    hide Run, Step, Trace, Plays, EndState, Replies, Events, Registered, Given, Performs, Runs, Entered;
    RequestBegins(kept, interp, s, todo, h, d);
    RunOne(kept, interp, d);
    HistoryNext(s, h, p);
    n := 1;
    if Runs(req) {
      n := PlayRunsOn(kept, interp, reqs, EndState(s, h), d, p);
    } else {
      RequestIsDone(kept, interp, s, todo, h, d, p);
      assert Events(h) + p.trace == Events(h);
    }
  }

  lemma PlayRunsOn<S>(kept: bool, interp: Interp<S>, reqs: seq<Request>, s: S, d: Direct<S>, p: Play<S>)
    returns (n: nat)
    requires reqs != [] && Runs(Last(reqs)) && Performs(kept, interp, reqs, s, d.events, p)
    requires var d1 := Step(kept, interp, d);
      && d1.events == d.events && d1.results == d.results && Registered(kept, reqs, d1.reg)
      && d1.control == EnteredFor(interp, s, Last(reqs))
    ensures Run(kept, interp, d, n)
         == Step(kept, interp, d).(control := Ready(p.after), results := d.results + p.replies,
                                   events := d.events + p.trace)
  {
    hide Run, Step, Trace, Registered, Given;
    var d1 := Step(kept, interp, d);
    RunOne(kept, interp, d);
    TraceRuns(kept, interp, reqs, d1, p.trace, p.last);
    RunSplit(kept, interp, d, 1, |p.trace|);
    RunNext(kept, interp, d, 1 + |p.trace|);
    RequestEnds(kept, interp, reqs, s, d.events, p, BusyAt(interp, d1, p.trace, p.last));
    n := |p.trace| + 2;
  }

  /** It also gets to every point within a request. */
  lemma PlayingIsSession<S>(
    kept: bool, interp: Interp<S>, s: S, todo: seq<Request>, h: seq<Play<S>>, trace: seq<Event>, t: S) returns (n: nat)
    requires Plays(kept, interp, s, todo, h) && |h| < |todo| && Runs(todo[|h|])
    requires Trace(kept, interp, todo[..|h| + 1], Entered(interp, EndState(s, h), todo[|h|]), Events(h), trace, t)
    ensures var d := Run(kept, interp, Start(s, todo), n);
      && d.control == Busy(t, if todo[|h|].CompileScript? then Compiling else Calling)
      && d.todo == todo[|h| + 1..] && d.results == Replies(h) && d.events == Events(h) + trace
  {
    hide Run, Step, Trace, Plays, EndState, Replies, Events, Registered, Given;
    var m := PlayedIsSession(kept, interp, s, todo, h);
    var start, reqs := Start(s, todo), todo[..|h| + 1];
    var d := Run(kept, interp, start, m);
    RequestBegins(kept, interp, s, todo, h, d);
    var d1 := Step(kept, interp, d);
    TraceRuns(kept, interp, reqs, d1, trace, t);
    RunNext(kept, interp, start, m);
    RunSplit(kept, interp, start, m + 1, |trace|);
    n := m + 1 + |trace|;
  }
}
