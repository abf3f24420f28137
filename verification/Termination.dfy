/** How many steps a session takes through the proxy: a number fixed by the kept session alone,
    the same for every interleaving. */
module Termination {
  import opened Base
  import opened Codec
  import opened Session
  import opened Frames
  import opened Messages
  import opened Pipes
  import opened Refinement
  import opened ProxyTheorems

  // ----- The price of a step of the kept session -----

  function Bit(b: bool): nat { if b then 1 else 0 }

  /** Every byte is written and read, the write is finished, and each unit is acted on. */
  function SendCost(us: seq<Unit>): nat {
    2 * |UnitsBytes(us)| + Bit(us != []) + |us|
  }

  function IssueCost(r: Request): nat {
    1 + 2 * |CommandBytes(ToCommand(r))| + 1
  }

  function IssueCosts(rs: seq<Request>): nat {
    if rs == [] then 0 else IssueCost(rs[0]) + IssueCosts(rs[1..])
  }

  function ReplyCost(reply: Option<Value>): nat {
    if reply.Some? then 2 * |Encode(reply.value)| + 1 + 1 else 0
  }

  function StepCost<S>(interp: Interp<S>, d: Direct<S>): nat {
    if Halted(d) then 0
    else if d.control.Ready? then
      IssueCost(d.todo[0]) + 1 + SendCost(Obey(interp, d.control.s, ToCommand(d.todo[0])).units)
    else
      1 + SendCost(Act(interp, Running(d.control.s, d.control.kind)).units) + ReplyCost(CallbackReply(interp, d))
  }

  /** What the program's callback returns if the guest now calls it. */
  function CallbackReply<S>(interp: Interp<S>, d: Direct<S>): Option<Value>
    requires d.control.Busy?
  {
    var a := interp.act(d.control.s);
    if a.Callback? then Invoke(d.reg, d.events, a.name, a.args) else None
  }

  /** The price of the next `n` steps. */
  function Future<S>(interp: Interp<S>, d: Direct<S>, n: nat): nat
    decreases n
  {
    if n == 0 then 0 else StepCost(interp, d) + Future(interp, KeptStep(interp, d), n - 1)
  }

  predicate HaltsWithin<S>(interp: Interp<S>, d: Direct<S>, n: nat) {
    Halted(KeptRun(interp, d, n))
  }

  lemma {:induction false} HaltedStays<S>(interp: Interp<S>, d: Direct<S>, n: nat)
    requires Halted(d)
    ensures KeptRun(interp, d, n) == d && Future(interp, d, n) == 0
    decreases n
  {
    if n > 0 { HaltedStays(interp, d, n - 1); }
  }

  lemma {:induction false} FutureStable<S>(interp: Interp<S>, d: Direct<S>, n: nat)
    requires HaltsWithin(interp, d, n)
    ensures HaltsWithin(interp, d, n + 1) && Future(interp, d, n + 1) == Future(interp, d, n)
    decreases n
  {
    hide KeptStep, StepCost;
    if n == 0 {
      HaltedStays(interp, d, 1);
    } else {
      FutureStable(interp, KeptStep(interp, d), n - 1);
    }
  }

  lemma FutureStep<S>(interp: Interp<S>, d: Direct<S>, n: nat)
    requires HaltsWithin(interp, d, n)
    ensures HaltsWithin(interp, KeptStep(interp, d), n)
    ensures Future(interp, d, n) == StepCost(interp, d) + Future(interp, KeptStep(interp, d), n)
  {
    if n == 0 {
      HaltedStays(interp, d, 1);
      HaltedStays(interp, d, 0);
    } else {
      hide KeptStep, StepCost;
      FutureStable(interp, KeptStep(interp, d), n - 1);
    }
  }

  // ----- The steps still to be taken -----

  /** Steps that the messages under way still need. */
  function Underway<S>(b: State<S>, m: Sys<S>): nat {
    2 * |b.p.out| + |b.down| + Bit(b.p.writing) + 2 * |b.c.out| + |b.up| + Bit(b.c.writing)
    + |m.units| + Bit(m.reply.Some?)
  }

  /** Steps already taken towards the next steps of the kept session: commands issued, a callback sent. */
  function Ahead<S>(interp: Interp<S>, m: Sys<S>): nat {
    IssueCosts(m.commands) +
    if m.child.Awaiting? && m.reply.None? then 1 + SendCost(Act(interp, Running(m.child.s, m.child.kind)).units) else 0
  }

  function Work<S>(interp: Interp<S>, b: State<S>, m: Sys<S>, d: Direct<S>, n: nat): int {
    Future(interp, d, n) + Underway(b, m) - Ahead(interp, m)
  }

  lemma {:induction false} IssueCostsAppend(rs: seq<Request>, r: Request)
    ensures IssueCosts(rs + [r]) == IssueCosts(rs) + IssueCost(r)
  {
    hide IssueCost;
    if rs == [] {
      assert rs + [r] == [r];
    } else {
      IssueCostsAppend(rs[1..], r);
      assert (rs + [r])[1..] == rs[1..] + [r];
    }
  }

  /** The step brings the work under way one step on, and its price is paid by the kept session's step, if any. */
  predicate Pays<S>(interp: Interp<S>, b: State<S>, m: Sys<S>, d: Direct<S>, k: Step, b': State<S>, m': Sys<S>) {
    Underway(b', m') - Ahead(interp, m') + 1
    == Underway(b, m) - Ahead(interp, m) + if StepsSession(interp, m, k) then StepCost(interp, d) else 0
  }

  lemma IssuePays<S>(interp: Interp<S>, b: State<S>, m: Sys<S>, d: Direct<S>, b': State<S>)
    requires Rep(b, m) && !b.caller.parent.Failed? && b.caller.parent.Idle? && !b.p.writing && b.caller.todo != []
    requires b' == b.(caller := Issued(b.caller), p := Port([], CommandBytes(ToCommand(b.caller.todo[0])), true))
    ensures Pays(interp, b, m, d, PIssue, b', Issue(m))
  {
    hide CommandBytes, UnitsBytes, DownBytes, StepCost, SendCost;
    IssueCostsAppend(m.commands, b.caller.todo[0]);
  }

  lemma ParentActPays<S>(interp: Interp<S>, b: State<S>, m: Sys<S>, d: Direct<S>)
    requires Rep(b, m) && Sim(interp, m, d) && Lawful(m)
    requires !b.caller.parent.Failed? && !b.p.writing && ParentReads(b.caller)
    requires !ParentReader(b.caller.parent, b.p.got).MoreUnit?
    ensures CanHandle(m)
    ensures !Handle(m).caller.parent.Failed? ==> Pays(interp, b, m, d, PAct, ParentAct(b), Handle(m))
  {
    hide UnitBytes, UnitsBytes, ParentReader, Sim, WithinLimits, CommandsBytes, Encode, IssueCost, SendCost;
    ParentHasUnit(interp, b, m, d);
    UnitExpected(interp, m, d);
    if m.units[0].CallU? {
      AwaitingCall(interp, m, d);
    } else {
      NotAwaiting(interp, m, d);
    }
  }

  lemma RunPays<S>(interp: Interp<S>, b: State<S>, m: Sys<S>, d: Direct<S>)
    requires Rep(b, m) && Sim(interp, m, d) && !b.caller.parent.Failed? && !b.c.writing && m.child.Running?
    ensures Pays(interp, b, m, d, CAct, ChildAct(interp, b), RunGuest(interp, m))
  {
    hide UnitsBytes, DownBytes, Sim;
    SessionBehind(interp, m, d);
  }

  lemma AcceptPays<S>(interp: Interp<S>, b: State<S>, m: Sys<S>, d: Direct<S>)
    requires Rep(b, m) && Sim(interp, m, d) && !b.caller.parent.Failed? && !b.c.writing && CanAccept(m)
    requires ParseCommand(b.c.got).GotCommand? && ParseCommand(b.c.got).c == ToCommand(m.commands[0])
    ensures Pays(interp, b, m, d, CAct, ChildAct(interp, b), Accept(interp, m))
  {
    hide UnitsBytes, DownBytes, Sim, IssueCost, ParseCommand;
    SessionBehind(interp, m, d);
    assert UnitsBytes([]) == [] by { NoUnits(); }
  }

  lemma ChildActPays<S>(interp: Interp<S>, b: State<S>, m: Sys<S>, d: Direct<S>)
    requires Rep(b, m) && Sim(interp, m, d) && Lawful(m)
    requires !b.caller.parent.Failed? && !b.c.writing && ChildCanAct(interp, b.child, b.c.got)
    ensures Pays(interp, b, m, d, CAct, ChildAct(interp, b), MessageStep(interp, m, CAct))
  {
    hide CommandBytes, UnitBytes, Encode, ParseCommand, Decode, Sim, UnitsBytes, CommandsBytes, Total, StepCost,
         SendCost, IssueCost;
    ChildActRefines(interp, b, m, d);
    ChildExpects(interp, m, d);
    ChildReader(interp, m, d, b.c.got);
    if m.child.Running? {
      RunPays(interp, b, m, d);
    } else if m.child.Waiting? {
      AcceptPays(interp, b, m, d);
    }
  }

  /** A callback in front of the queue: the guest waits for it, in the kept session too. */
  lemma AwaitingCall<S>(interp: Interp<S>, m: Sys<S>, d: Direct<S>)
    requires Sim(interp, m, d) && !m.caller.parent.Failed? && m.units != [] && m.units[0].CallU?
    ensures m.child.Awaiting? && m.reply.None? && m.commands == []
    ensures interp.act(m.child.s) == Callback(m.units[0].name, m.units[0].args, interp.act(m.child.s).resume)
    ensures d.control == Busy(m.child.s, m.child.kind) && d.reg == m.caller.reg && d.events == m.caller.events
  {
    UnitsAlone(interp, m, d);
    hide LogEvents, LogsThen;
    NoDefinitions(d.reg);
    LogsOf(m.units);
  }

  lemma NotAwaiting<S>(interp: Interp<S>, m: Sys<S>, d: Direct<S>)
    requires Sim(interp, m, d) && !m.caller.parent.Failed? && m.units != [] && !m.units[0].CallU?
    ensures m.reply.None?
  {
  }

  lemma SessionBehind<S>(interp: Interp<S>, m: Sys<S>, d: Direct<S>)
    requires Sim(interp, m, d) && !m.caller.parent.Failed?
    ensures m.child.Running? ==>
              d.control == Busy(m.child.s, m.child.kind) && m.commands == [] && m.reply.None?
    ensures m.child.Waiting? && m.commands != [] ==>
              && d.control == Ready(m.child.s) && d.todo != [] && d.todo[0] == m.commands[0]
              && m.reply.None? && m.units == []
    ensures m.child.Awaiting? && m.reply.None? ==> d.control == Busy(m.child.s, m.child.kind) && m.commands == []
  {
  }

  /** Every step that does not fail takes exactly one from the work that is left. */
  lemma StepTakesOne<S(!new)>(
    interp: Interp<S>, capacity: nat, b: State<S>, m: Sys<S>, d: Direct<S>, k: Step, n: nat)
    requires Tracks(interp, b, m, d) && HaltsWithin(interp, d, n)
    requires Enabled(interp, capacity, b, k) && !Take(interp, capacity, b, k).caller.parent.Failed?
    ensures HaltsWithin(interp, SessionStep(interp, m, d, k), n)
    ensures Work(interp, Take(interp, capacity, b, k), MessageStep(interp, m, k), SessionStep(interp, m, d, k), n)
         == Work(interp, b, m, d, n) - 1
  {
    var b', m' := Take(interp, capacity, b, k), MessageStep(interp, m, k);
    assert Pays(interp, b, m, d, k, b', m') by {
      StepRefines(interp, capacity, b, m, d, k);
      StepPays(interp, capacity, b, m, d, k);
    }
    FutureStep(interp, d, n);
  }

  lemma StepPays<S(!new)>(interp: Interp<S>, capacity: nat, b: State<S>, m: Sys<S>, d: Direct<S>, k: Step)
    requires Tracks(interp, b, m, d)
    requires Enabled(interp, capacity, b, k) && !Take(interp, capacity, b, k).caller.parent.Failed?
    ensures Pays(interp, b, m, d, k, Take(interp, capacity, b, k), MessageStep(interp, m, k))
  {
    hide Sim, InterpOk, Lawful, ParentReader, ChildWantsMore, ChildCanAct, StepCost, Ahead, ParentAct, ChildAct, Serve;
    match k
    case PIssue => IssuePays(interp, b, m, d, Take(interp, capacity, b, k));
    case PAct =>
      ParentActRefines(interp, b, m, d);
      ParentActPays(interp, b, m, d);
    case CAct => ChildActPays(interp, b, m, d);
    case _ =>
  }

  /** What has been done ahead of the kept session is part of what it will cost. */
  lemma {:induction false} CommandsWithinFuture<S>(interp: Interp<S>, d: Direct<S>, rs: seq<Request>, n: nat)
    requires HaltsWithin(interp, d, n) && d.control.Ready? && rs <= d.todo
    requires rs != [] ==> AllDefinitions(Front(rs))
    ensures IssueCosts(rs) <= Future(interp, d, n)
    decreases |rs|
  {
    hide IssueCost, SendCost;
    if rs != [] {
      FutureStep(interp, d, n);
      var d' := KeptStep(interp, d);
      if |rs| > 1 {
        assert !rs[0].Answered();
        assert Front(rs[1..]) == Front(rs)[1..];
        CommandsWithinFuture(interp, d', rs[1..], n);
      }
    }
  }

  lemma AheadWithinFuture<S(!new)>(interp: Interp<S>, b: State<S>, m: Sys<S>, d: Direct<S>, n: nat)
    requires Tracks(interp, b, m, d) && !b.caller.parent.Failed? && HaltsWithin(interp, d, n)
    ensures Ahead(interp, m) <= Future(interp, d, n)
  {
    hide KeptStep, SendCost, IssueCost, UnitsBytes, DownBytes;
    if m.commands != [] {
      CommandsWithinFuture(interp, d, m.commands, n);
    } else if m.child.Awaiting? && m.reply.None? {
      FutureStep(interp, d, n);
    }
  }

  // ----- Limits -----

  /** What the guest says next keeps the parent's limits on strings and arrays. */
  predicate ActsWithinLimits<S>(interp: Interp<S>, d: Direct<S>) {
    d.control.Busy? ==>
      forall i :: 0 <= i < |Act(interp, Running(d.control.s, d.control.kind)).units| ==>
        WithinLimits(Act(interp, Running(d.control.s, d.control.kind)).units[i])
  }

  ghost predicate KeepsLimits<S>(interp: Interp<S>, d: Direct<S>) {
    forall j: nat :: ActsWithinLimits(interp, KeptRun(interp, d, j))
  }

  lemma KeepsLimitsOn<S>(interp: Interp<S>, d: Direct<S>)
    requires KeepsLimits(interp, d)
    ensures ActsWithinLimits(interp, d) && KeepsLimits(interp, KeptStep(interp, d))
  {
    hide KeptStep, ActsWithinLimits;
    assert KeptRun(interp, d, 0) == d;
    forall j: nat ensures ActsWithinLimits(interp, KeptRun(interp, KeptStep(interp, d), j)) {
      assert KeptRun(interp, d, j + 1) == KeptRun(interp, KeptStep(interp, d), j);
    }
  }

  predicate UnitsWithinLimits(us: seq<Unit>) {
    forall i :: 0 <= i < |us| ==> WithinLimits(us[i])
  }

  lemma StepKeepsLimits<S(!new)>(interp: Interp<S>, capacity: nat, b: State<S>, m: Sys<S>, d: Direct<S>, k: Step)
    requires Tracks(interp, b, m, d) && UnitsWithinLimits(m.units) && ActsWithinLimits(interp, d)
    requires Enabled(interp, capacity, b, k) && k != PTimeout
    ensures UnitsWithinLimits(MessageStep(interp, m, k).units)
    ensures Take(interp, capacity, b, k).caller.parent != Failed(OverLimit)
    ensures Take(interp, capacity, b, k).caller.parent != Failed(TimedOut)
    ensures Take(interp, capacity, b, k).caller.parent.Failed? ==> m.units != []
  {
    hide UnitBytes, UnitsBytes, DownBytes, ParentReader, Sim, CommandsBytes, ChildAct, WithinLimits, Lawful, InterpOk;
    match k
    case PAct =>
      ParentHasUnit(interp, b, m, d);
      UnitExpected(interp, m, d);
    case CAct =>
      SessionBehind(interp, m, d);
      ChildActCaller(interp, b);
      assert forall flag :: WithinLimits(FlagU(flag)) by { FlagsWithinLimits(); }
    case _ =>
  }

  lemma {:induction false} RunWithinLimits<S(!new)>(
    interp: Interp<S>, capacity: nat, b: State<S>, ks: seq<Step>, m: Sys<S>, d: Direct<S>)
    requires Tracks(interp, b, m, d) && Executes(interp, capacity, b, ks)
    requires UnitsWithinLimits(m.units) && KeepsLimits(interp, d) && b.caller.parent != Failed(OverLimit)
    ensures Execute(interp, capacity, b, ks).caller.parent != Failed(OverLimit)
    decreases |ks|
  {
    hide Tracks, MessageStep, KeptStep, StepsSession, UnitsWithinLimits, KeepsLimits, InSync, PortOk, Take, Enabled;
    if ks != [] {
      var k, rest := ks[0], ks[1..];
      var b', m', d' := Take(interp, capacity, b, k), MessageStep(interp, m, k), SessionStep(interp, m, d, k);
      TracksOn(interp, capacity, b, m, d, k);
      if k.PTimeout? {
        TimeoutFails(interp, capacity, b);
        FailedStops(interp, capacity, b', rest);
      } else {
        KeepsLimitsOn(interp, d);
        StepKeepsLimits(interp, capacity, b, m, d, k);
        RunWithinLimits(interp, capacity, b', rest, m', d');
      }
    }
  }

  lemma TimeoutFails<S>(interp: Interp<S>, capacity: nat, b: State<S>)
    requires Enabled(interp, capacity, b, PTimeout)
    ensures Take(interp, capacity, b, PTimeout).caller.parent == Failed(TimedOut)
  {
  }

  /** In every run the parent gives up because of its limits only if some log line, callback or result of the guest in
      the kept session is over them. */
  lemma OverLimitIsGuests<S(!new)>(interp: Interp<S>, capacity: nat, s: S, todo: seq<Request>, ks: seq<Step>)
    requires InterpOk(interp) && RequestsOk(todo) && Executes(interp, capacity, Boot(s, todo), ks)
    requires Execute(interp, capacity, Boot(s, todo), ks).caller.parent == Failed(OverLimit)
    ensures exists j: nat :: !ActsWithinLimits(interp, KeptRun(interp, Start(s, todo), j))
  {
    if KeepsLimits(interp, Start(s, todo)) {
      TracksBoot(interp, s, todo);
      RunWithinLimits(interp, capacity, Boot(s, todo), ks, Init(s, todo), Start(s, todo));
    }
  }

  lemma ChildActCaller<S>(interp: Interp<S>, b: State<S>)
    requires ChildCanAct(interp, b.child, b.c.got)
    ensures ChildAct(interp, b).caller == b.caller
  {
  }

  lemma FlagsWithinLimits()
    ensures forall flag :: WithinLimits(FlagU(flag))
  {
  }

  // ----- Whole runs -----

  /** A run that keeps the limits, next to a kept session that halts. */
  ghost predicate OnCourse<S(!new)>(interp: Interp<S>, b: State<S>, m: Sys<S>, d: Direct<S>, n: nat) {
    && Tracks(interp, b, m, d) && HaltsWithin(interp, d, n)
    && (b.caller.parent.Failed? ==> b.caller.parent.why == GuestError || b.caller.parent.why == HostError)
    && KeepsLimits(interp, d) && UnitsWithinLimits(m.units)
  }

  function Left<S>(interp: Interp<S>, b: State<S>, m: Sys<S>, d: Direct<S>, n: nat): int {
    if b.caller.parent.Failed? then 0 else Work(interp, b, m, d, n)
  }

  lemma StaysOnCourse<S(!new)>(
    interp: Interp<S>, capacity: nat, b: State<S>, m: Sys<S>, d: Direct<S>, k: Step, n: nat)
    requires OnCourse(interp, b, m, d, n) && Enabled(interp, capacity, b, k) && k != PTimeout
    ensures OnCourse(interp, Take(interp, capacity, b, k), MessageStep(interp, m, k), SessionStep(interp, m, d, k), n)
  {
    assert !b.caller.parent.Failed?;
    hide Take, Sim, Rep, Lawful, MessageStep, KeptStep, KeepsLimits, Future, InterpOk, Enabled, UnitsWithinLimits,
         StepsSession;
    StepRefines(interp, capacity, b, m, d, k);
    KeepsLimitsOn(interp, d);
    StepKeepsLimits(interp, capacity, b, m, d, k);
    FutureStep(interp, d, n);
  }

  lemma StepLeavesLess<S(!new)>(
    interp: Interp<S>, capacity: nat, b: State<S>, m: Sys<S>, d: Direct<S>, k: Step, n: nat)
    requires OnCourse(interp, b, m, d, n) && Enabled(interp, capacity, b, k) && k != PTimeout
    ensures var b' := Take(interp, capacity, b, k);
            var left := Left(interp, b, m, d, n);
            var left' := Left(interp, b', MessageStep(interp, m, k), SessionStep(interp, m, d, k), n);
            left' + 1 <= left && (!b'.caller.parent.Failed? ==> left' + 1 == left)
  {
    assert !b.caller.parent.Failed?;
    hide Take, Sim, Rep, Lawful, MessageStep, SessionStep, KeptStep, KeepsLimits, Future, Ahead, InterpOk, Enabled,
         UnitsWithinLimits;
    if Take(interp, capacity, b, k).caller.parent.Failed? {
      KeepsLimitsOn(interp, d);
      StepKeepsLimits(interp, capacity, b, m, d, k);
      AheadWithinFuture(interp, b, m, d, n);
    } else {
      StepTakesOne(interp, capacity, b, m, d, k, n);
    }
  }

  /** The steps taken and the work that is left add up to the price of the kept session. */
  lemma {:induction false} RunTakesWork<S(!new)>(
    interp: Interp<S>, capacity: nat, b: State<S>, ks: seq<Step>, m: Sys<S>, d: Direct<S>, n: nat)
    returns (m': Sys<S>, j: nat)
    requires OnCourse(interp, b, m, d, n) && Executes(interp, capacity, b, ks) && PTimeout !in ks
    ensures var e, d' := Execute(interp, capacity, b, ks), KeptRun(interp, d, j);
      && OnCourse(interp, e, m', d', n)
      && |ks| + Left(interp, e, m', d', n) <= Left(interp, b, m, d, n)
      && (!e.caller.parent.Failed? ==> |ks| + Left(interp, e, m', d', n) == Left(interp, b, m, d, n))
    decreases |ks|
  {
    hide Take, Enabled, OnCourse, Left, MessageStep, KeptStep;
    if ks == [] {
      m', j := m, 0;
    } else {
      var k := ks[0];
      StaysOnCourse(interp, capacity, b, m, d, k, n);
      StepLeavesLess(interp, capacity, b, m, d, k, n);
      var b1, m1, d1 := Take(interp, capacity, b, k), MessageStep(interp, m, k), SessionStep(interp, m, d, k);
      m', j := RunTakesWork(interp, capacity, b1, ks[1..], m1, d1, n);
      if b1.caller.parent.Failed? { FailedStops(interp, capacity, b1, ks[1..]); }
      if StepsSession(interp, m, k) { j := j + 1; }
    }
  }

  lemma FailedStops<S>(interp: Interp<S>, capacity: nat, b: State<S>, ks: seq<Step>)
    requires b.caller.parent.Failed? && Executes(interp, capacity, b, ks)
    ensures ks == []
  {
  }

  /** Two halted states of one kept session are the same. */
  lemma HaltsOnce<S>(interp: Interp<S>, d: Direct<S>, i: nat, j: nat)
    requires Halted(KeptRun(interp, d, i)) && Halted(KeptRun(interp, d, j))
    ensures KeptRun(interp, d, i) == KeptRun(interp, d, j)
  {
    hide KeptStep;
    if i <= j {
      KeptRunSplit(interp, d, i, j - i);
      HaltedStays(interp, KeptRun(interp, d, i), j - i);
    } else {
      KeptRunSplit(interp, d, j, i - j);
      HaltedStays(interp, KeptRun(interp, d, j), i - j);
    }
  }

  lemma {:induction false} KeptRunSplit<S>(interp: Interp<S>, d: Direct<S>, i: nat, j: nat)
    ensures KeptRun(interp, d, i + j) == KeptRun(interp, KeptRun(interp, d, i), j)
    decreases i
  {
    hide KeptStep;
    if i > 0 { KeptRunSplit(interp, KeptStep(interp, d), i - 1, j); }
  }

  /** No step is possible any more, apart from a time-out. */
  ghost predicate Stuck<S>(interp: Interp<S>, capacity: nat, b: State<S>) {
    forall k :: k != PTimeout ==> !Enabled(interp, capacity, b, k)
  }

  /** A session that halts when used directly, and keeps the limits, also ends through the proxy, in the same way:
      no interleaving takes more steps than the price of the kept session; every run that goes on until nothing is
      left to do has the kept session's results and events; and when nothing failed it took exactly that many
      steps. */
  lemma ProxyTerminates<S(!new)>(interp: Interp<S>, capacity: nat, s: S, todo: seq<Request>, ks: seq<Step>, n: nat)
    requires InterpOk(interp) && RequestsOk(todo) && capacity >= 1
    requires HaltsWithin(interp, Start(s, todo), n) && KeepsLimits(interp, Start(s, todo))
    requires Executes(interp, capacity, Boot(s, todo), ks) && PTimeout !in ks
    ensures var e, end, price :=
              Execute(interp, capacity, Boot(s, todo), ks), KeptRun(interp, Start(s, todo), n),
              Future(interp, Start(s, todo), n);
      && |ks| <= price
      && (Stuck(interp, capacity, e) ==>
            && e.caller.results == end.results && e.caller.events == end.events
            && if end.control.Ready? then Finished(e) && |ks| == price else e.caller.parent == Failed(end.control.why))
  {
    var b, m, d := Boot(s, todo), Init(s, todo), Start(s, todo);
    TracksBoot(interp, s, todo);
    hide Take, Enabled, Sim, Rep, Lawful, InterpOk, KeepsLimits, KeptStep, Future;
    var e := Execute(interp, capacity, b, ks);
    var m', j := RunTakesWork(interp, capacity, b, ks, m, d, n);
    var d' := KeptRun(interp, d, j);
    LeftOver(interp, e, m', d', n);
    if Stuck(interp, capacity, e) {
      var k := Progress(interp, capacity, s, todo, ks);
      hide Stuck, Finished, Executes, Execute, Reproduces, OnCourse, Left, Halted, KeptRun;
      StuckIsHalted(interp, e, m', d', n);
      HaltsOnce(interp, d, n, j);
      SameEnd(e, d');
    }
  }

  /** How a session ends whose parent has nothing more to do. */
  lemma SameEnd<S>(e: State<S>, d: Direct<S>)
    requires Halted(d) && Reproduces(e.caller, d) && (e.caller.parent.Failed? || Finished(e))
    requires e.caller.parent.Failed? ==> e.caller.parent.why == GuestError || e.caller.parent.why == HostError
    ensures e.caller.results == d.results && e.caller.events == d.events
    ensures if d.control.Ready? then Finished(e) else e.caller.parent == Failed(d.control.why)
  {
  }

  lemma LeftOver<S(!new)>(interp: Interp<S>, b: State<S>, m: Sys<S>, d: Direct<S>, n: nat)
    requires OnCourse(interp, b, m, d, n)
    ensures Left(interp, b, m, d, n) >= 0
  {
    if !b.caller.parent.Failed? { AheadWithinFuture(interp, b, m, d, n); }
  }

  lemma StuckIsHalted<S(!new)>(interp: Interp<S>, b: State<S>, m: Sys<S>, d: Direct<S>, n: nat)
    requires OnCourse(interp, b, m, d, n) && (b.caller.parent.Failed? || Finished(b))
    ensures Halted(d) && Reproduces(b.caller, d)
    ensures Finished(b) ==> Left(interp, b, m, d, n) == 0
  {
    TrackedReproduces(interp, b, m, d);
    if Finished(b) {
      NothingUnderway(b, m);
      AllQuiet(interp, m, d);
      HaltedStays(interp, d, n);
    }
  }

  lemma NothingUnderway<S>(b: State<S>, m: Sys<S>)
    requires Rep(b, m) && Finished(b)
    ensures m.commands == [] && m.reply.None? && m.units == []
  {
  }

  // ----- Beyond the limits -----

  /** A unit under way is over the limits, or a later act of the kept session is. */
  ghost predicate OverAhead<S>(interp: Interp<S>, m: Sys<S>, d: Direct<S>) {
    !UnitsWithinLimits(m.units) || !KeepsLimits(interp, d)
  }

  lemma OverAppended(us: seq<Unit>, vs: seq<Unit>)
    ensures UnitsWithinLimits(us + vs) <==> UnitsWithinLimits(us) && UnitsWithinLimits(vs)
  {
    hide WithinLimits;
    assert forall i :: 0 <= i < |us| ==> (us + vs)[i] == us[i];
    assert forall i :: 0 <= i < |vs| ==> (us + vs)[|us| + i] == vs[i];
  }

  lemma OverHandled(us: seq<Unit>)
    requires us != []
    ensures UnitsWithinLimits(us) <==> WithinLimits(us[0]) && UnitsWithinLimits(us[1..])
  {
    hide WithinLimits;
    assert us == [us[0]] + us[1..];
    OverAppended([us[0]], us[1..]);
  }

  /** An act over the limits is the next one or comes later. */
  lemma OverNext<S>(interp: Interp<S>, d: Direct<S>)
    requires !KeepsLimits(interp, d)
    ensures !ActsWithinLimits(interp, d) || !KeepsLimits(interp, KeptStep(interp, d))
  {
    hide KeptStep, ActsWithinLimits;
    var j: nat :| !ActsWithinLimits(interp, KeptRun(interp, d, j));
    assert j > 0 ==> KeptRun(interp, d, j) == KeptRun(interp, KeptStep(interp, d), j - 1);
  }

  /** What is over the limits stays ahead until the parent fails. */
  lemma StepStaysOver<S(!new)>(interp: Interp<S>, capacity: nat, b: State<S>, m: Sys<S>, d: Direct<S>, k: Step)
    requires Tracks(interp, b, m, d) && Enabled(interp, capacity, b, k) && OverAhead(interp, m, d)
    requires !Take(interp, capacity, b, k).caller.parent.Failed?
    ensures OverAhead(interp, MessageStep(interp, m, k), SessionStep(interp, m, d, k))
  {
    assert !m.caller.parent.Failed?;
    match k
    case PAct => HandleStaysOver(interp, b, m, d);
    case CAct => ChildStaysOver(interp, m, d);
    case _ => hide *; OtherStaysOver(interp, m, d, k);
  }

  lemma OtherStaysOver<S>(interp: Interp<S>, m: Sys<S>, d: Direct<S>, k: Step)
    requires OverAhead(interp, m, d) && !k.PAct? && !k.CAct?
    ensures OverAhead(interp, MessageStep(interp, m, k), SessionStep(interp, m, d, k))
  {
    hide KeepsLimits, UnitsWithinLimits, Issued;
  }

  lemma ChildStaysOver<S>(interp: Interp<S>, m: Sys<S>, d: Direct<S>)
    requires Sim(interp, m, d) && !m.caller.parent.Failed? && OverAhead(interp, m, d)
    ensures OverAhead(interp, MessageStep(interp, m, CAct), SessionStep(interp, m, d, CAct))
  {
    SessionBehind(interp, m, d);
    hide KeptStep, KeepsLimits, UnitsWithinLimits, WithinLimits, Sim;
    if !KeepsLimits(interp, d) { OverNext(interp, d); }
    if CanRun(m) {
      OverAppended(m.units, Act(interp, m.child).units);
      ActOver(interp, m, d);
    } else if CanAccept(m) {
      OverAppended(m.units, Obey(interp, m.child.s, ToCommand(m.commands[0])).units);
    }
  }

  lemma ActOver<S>(interp: Interp<S>, m: Sys<S>, d: Direct<S>)
    requires m.child.Running? && d.control == Busy(m.child.s, m.child.kind)
    ensures ActsWithinLimits(interp, d) <==> UnitsWithinLimits(Act(interp, m.child).units)
  {
    hide WithinLimits;
    assert m.child == Running(d.control.s, d.control.kind);
  }

  lemma HandleStaysOver<S(!new)>(interp: Interp<S>, b: State<S>, m: Sys<S>, d: Direct<S>)
    requires Tracks(interp, b, m, d) && OverAhead(interp, m, d)
    requires !b.caller.parent.Failed? && !b.p.writing && ParentReads(b.caller)
    requires !ParentReader(b.caller.parent, b.p.got).MoreUnit? && !ParentAct(b).caller.parent.Failed?
    ensures OverAhead(interp, MessageStep(interp, m, PAct), SessionStep(interp, m, d, PAct))
  {
    assert !m.caller.parent.Failed?;
    hide KeptStep, KeepsLimits, UnitsWithinLimits, WithinLimits, ParentReader, Sim, Rep, Lawful, InterpOk, Invoke;
    ParentHasUnit(interp, b, m, d);
    assert WithinLimits(m.units[0]);
    OverHandled(m.units);
    if !KeepsLimits(interp, d) {
      OverNext(interp, d);
      if m.units[0].CallU? {
        AwaitingCall(interp, m, d);
        CallWithinLimits(interp, m.units[0], d);
      }
    }
  }

  lemma CallWithinLimits<S>(interp: Interp<S>, u: Unit, d: Direct<S>)
    requires u.CallU? && WithinLimits(u) && d.control.Busy?
    requires interp.act(d.control.s).Callback? && u == CallU(interp.act(d.control.s).name, interp.act(d.control.s).args)
    ensures ActsWithinLimits(interp, d)
  {
    hide WithinLimits;
  }

  /** If some log line, callback or result of the guest in the kept session is over the limits, no run ever finishes. */
  lemma OverLimitNeverFinishes<S(!new)>(
    interp: Interp<S>, capacity: nat, s: S, todo: seq<Request>, ks: seq<Step>, j: nat)
    requires InterpOk(interp) && RequestsOk(todo) && Executes(interp, capacity, Boot(s, todo), ks)
    requires !ActsWithinLimits(interp, KeptRun(interp, Start(s, todo), j))
    ensures !Finished(Execute(interp, capacity, Boot(s, todo), ks))
  {
    TracksBoot(interp, s, todo);
    RunStaysOver(interp, capacity, Boot(s, todo), ks, Init(s, todo), Start(s, todo));
  }

  lemma {:induction false} RunStaysOver<S(!new)>(
    interp: Interp<S>, capacity: nat, b: State<S>, ks: seq<Step>, m: Sys<S>, d: Direct<S>)
    requires Tracks(interp, b, m, d) && Executes(interp, capacity, b, ks)
    requires OverAhead(interp, m, d) && !b.caller.parent.Failed?
    ensures !Finished(Execute(interp, capacity, b, ks))
    decreases |ks|
  {
    hide Tracks, MessageStep, KeptStep, StepsSession, OverAhead, InSync, PortOk, Take, Enabled;
    if ks == [] {
      if Finished(b) { NothingOverAtEnd(interp, b, m, d); }
    } else {
      var k, rest := ks[0], ks[1..];
      var b', m', d' := Take(interp, capacity, b, k), MessageStep(interp, m, k), SessionStep(interp, m, d, k);
      TracksOn(interp, capacity, b, m, d, k);
      if b'.caller.parent.Failed? {
        FailedStops(interp, capacity, b', rest);
      } else {
        StepStaysOver(interp, capacity, b, m, d, k);
        RunStaysOver(interp, capacity, b', rest, m', d');
      }
    }
  }

  lemma NothingOverAtEnd<S(!new)>(interp: Interp<S>, b: State<S>, m: Sys<S>, d: Direct<S>)
    requires Tracks(interp, b, m, d) && Finished(b)
    ensures !OverAhead(interp, m, d)
  {
    NothingUnderway(b, m);
    AllQuiet(interp, m, d);
    forall j: nat
      ensures ActsWithinLimits(interp, KeptRun(interp, d, j))
    {
      HaltedStays(interp, d, j);
    }
  }

  /** So of the sessions that come to a good end in the kept session, exactly those within the limits do so through the
      proxy, and under every interleaving. */
  lemma FinishesWithinLimits<S(!new)>(interp: Interp<S>, capacity: nat, s: S, todo: seq<Request>, ks: seq<Step>, n: nat)
    requires InterpOk(interp) && RequestsOk(todo) && capacity >= 1
    requires KeptRun(interp, Start(s, todo), n).control.Ready? && HaltsWithin(interp, Start(s, todo), n)
    requires Executes(interp, capacity, Boot(s, todo), ks) && PTimeout !in ks
    requires Stuck(interp, capacity, Execute(interp, capacity, Boot(s, todo), ks))
    ensures Finished(Execute(interp, capacity, Boot(s, todo), ks)) <==> KeepsLimits(interp, Start(s, todo))
  {
    var start := Start(s, todo);
    if KeepsLimits(interp, start) {
      ProxyTerminates(interp, capacity, s, todo, ks, n);
    } else {
      var j: nat :| !ActsWithinLimits(interp, KeptRun(interp, start, j));
      OverLimitNeverFinishes(interp, capacity, s, todo, ks, j);
    }
  }
}
