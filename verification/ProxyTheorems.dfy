/** What a program can rely on when it uses an interpreter through the proxy instead of directly. */
module ProxyTheorems {
  import opened Codec
  import opened Session
  import opened Frames
  import opened Messages
  import opened Pipes
  import opened Refinement

  // ----- Runs -----

  /** The run so far stands for messages that are in step with the kept session `d`. */
  ghost predicate Tracks<S(!new)>(interp: Interp<S>, b: State<S>, m: Sys<S>, d: Direct<S>) {
    InterpOk(interp) && Lawful(m) && Rep(b, m) && Sim(interp, m, d)
  }

  lemma TracksBoot<S(!new)>(interp: Interp<S>, s: S, todo: seq<Request>)
    requires InterpOk(interp) && RequestsOk(todo)
    ensures Tracks(interp, Boot(s, todo), Init(s, todo), Start(s, todo))
  {
    hide Sim;
    SimInit(interp, s, todo);
  }

  lemma {:induction false} TracksRun<S(!new)>(
    interp: Interp<S>, capacity: nat, b: State<S>, ks: seq<Step>, m: Sys<S>, d: Direct<S>) returns (m': Sys<S>, n: nat)
    requires Tracks(interp, b, m, d) && Executes(interp, capacity, b, ks)
    ensures Tracks(interp, Execute(interp, capacity, b, ks), m', KeptRun(interp, d, n))
    decreases |ks|
  {
    if ks == [] {
      m', n := m, 0;
    } else {
      StepRefines(interp, capacity, b, m, d, ks[0]);
      var d1 := SessionStep(interp, m, d, ks[0]);
      hide Enabled, Take, Sim, Rep, Lawful, MessageStep, KeptStep;
      var b1, m1 := Take(interp, capacity, b, ks[0]), MessageStep(interp, m, ks[0]);
      m', n := TracksRun(interp, capacity, b1, ks[1..], m1, d1);
      if d1 != d { n := n + 1; }
    }
  }

  // ----- Refinement -----

  /** What the parent has is what the kept session `d` has: so far; completely whenever the parent is idle;
      and also when the guest or a callback has failed, which it then did in the kept session. */
  ghost predicate Reproduces<S>(c: Caller, d: Direct<S>) {
    && c.results <= d.results && c.events <= d.events
    && (c.parent.Idle? ==> c.results == d.results && c.events == d.events && d.control.Ready?)
    && (c.parent.Failed? && (c.parent.why == GuestError || c.parent.why == HostError) ==>
          c.results == d.results && c.events == d.events && d.control == Stopped(c.parent.why))
  }

  /** For every interpreter, every session and every interleaving: the results the program has received, the log
      lines and the callbacks it has run, with the values it returned for them, are those of the kept session. */
  lemma ProxyRefinesKept<S(!new)>(interp: Interp<S>, capacity: nat, s: S, todo: seq<Request>, ks: seq<Step>)
    returns (n: nat)
    requires InterpOk(interp) && RequestsOk(todo) && Executes(interp, capacity, Boot(s, todo), ks)
    ensures Reproduces(Execute(interp, capacity, Boot(s, todo), ks).caller, KeptRun(interp, Start(s, todo), n))
  {
    TracksBoot(interp, s, todo);
    var m;
    m, n := TracksRun(interp, capacity, Boot(s, todo), ks, Init(s, todo), Start(s, todo));
    TrackedReproduces(interp, Execute(interp, capacity, Boot(s, todo), ks), m, KeptRun(interp, Start(s, todo), n));
  }

  lemma TrackedReproduces<S(!new)>(interp: Interp<S>, b: State<S>, m: Sys<S>, d: Direct<S>)
    requires Tracks(interp, b, m, d)
    ensures Reproduces(b.caller, d)
  {
    hide DefineAll, DownBytes, UnitsBytes;
    if m.units == [] { NoLogs(); }
  }

  // ----- Synchronisation -----

  /** No reader ever meets a byte it does not expect, and the pipes carry data in one direction at a time. */
  ghost predicate InSync<S>(interp: Interp<S>, b: State<S>) {
    && (b.down == [] || b.up == [])
    && (ParentReads(b.caller) && !b.p.writing ==>
          && !ParentReader(b.caller.parent, b.p.got).Junk?
          && (ParentReader(b.caller.parent, b.p.got).GotUnit? ==>
                && Expects(b.caller.parent, ParentReader(b.caller.parent, b.p.got).u)
                && ParentReader(b.caller.parent, b.p.got).n == |b.p.got|))
    && (b.child.Waiting? && !b.c.writing ==>
          || ParseCommand(b.c.got).MoreCommand?
          || (ParseCommand(b.c.got).GotCommand? && ParseCommand(b.c.got).n == |b.c.got|))
    && (b.child.Awaiting? && !b.c.writing ==>
          && interp.act(b.child.s).Callback?
          && var p := Decode(b.c.got, 0, READ_VALUE_NOLIMIT); p.More? || (p.Ok? && p.n == |b.c.got|))
  }

  lemma StaysInSync<S(!new)>(interp: Interp<S>, capacity: nat, s: S, todo: seq<Request>, ks: seq<Step>)
    requires InterpOk(interp) && RequestsOk(todo) && Executes(interp, capacity, Boot(s, todo), ks)
    requires !Execute(interp, capacity, Boot(s, todo), ks).caller.parent.Failed?
    ensures InSync(interp, Execute(interp, capacity, Boot(s, todo), ks))
  {
    TracksBoot(interp, s, todo);
    var m, n := TracksRun(interp, capacity, Boot(s, todo), ks, Init(s, todo), Start(s, todo));
    TrackedInSync(interp, Execute(interp, capacity, Boot(s, todo), ks), m, KeptRun(interp, Start(s, todo), n));
  }

  lemma TrackedInSync<S(!new)>(interp: Interp<S>, b: State<S>, m: Sys<S>, d: Direct<S>)
    requires Tracks(interp, b, m, d) && !b.caller.parent.Failed?
    ensures InSync(interp, b)
  {
    hide ParentReader, ParseCommand, Decode, CommandBytes, UnitBytes, Encode, CommandsBytes, UnitsBytes,
         WithinLimits, Sim, Total;
    OneWay(interp, b, m, d);
    if ParentReads(b.caller) && !b.p.writing && !ParentReader(b.caller.parent, b.p.got).MoreUnit? {
      ParentHasUnit(interp, b, m, d);
    }
    ChildExpects(interp, m, d);
    ChildReader(interp, m, d, b.c.got);
    ChildHasNothing(b, m);
  }

  /** Only one of the pipes is in use. */
  lemma OneWay<S>(interp: Interp<S>, b: State<S>, m: Sys<S>, d: Direct<S>)
    requires Rep(b, m) && Sim(interp, m, d) && !b.caller.parent.Failed?
    ensures m.units == [] ==> b.p.got == [] && b.up == [] && b.c.out == []
    ensures m.commands == [] && m.reply.None? ==> b.c.got == [] && b.down == [] && b.p.out == []
    ensures m.units == [] || (m.commands == [] && m.reply.None?)
  {
    hide Sim, UnitBytes, CommandBytes, Encode;
    if m.units != [] { UnitExpected(interp, m, d); }
  }

  lemma ChildHasNothing<S>(b: State<S>, m: Sys<S>)
    requires Rep(b, m) && !b.caller.parent.Failed?
    ensures m.commands == [] && m.reply.None? ==> b.c.got == []
  {
  }

  /** Every step of a run that is in step stays so, and starts in sync. */
  lemma TracksOn<S(!new)>(interp: Interp<S>, capacity: nat, b: State<S>, m: Sys<S>, d: Direct<S>, k: Step)
    requires Tracks(interp, b, m, d) && Enabled(interp, capacity, b, k)
    ensures InSync(interp, b) && PortOk(b.p) && PortOk(b.c) && (b.child.Running? ==> b.c.got == [])
    ensures Tracks(interp, Take(interp, capacity, b, k), MessageStep(interp, m, k), SessionStep(interp, m, d, k))
  {
    StepRefines(interp, capacity, b, m, d, k);
    TrackedInSync(interp, b, m, d);
    hide Sim, Lawful, Take, MessageStep, SessionStep, InSync, UnitsBytes, DownBytes;
  }

  // ----- Deadlock freedom -----

  /** With pipes of one byte or more, a session that has not failed is finished or can go on. */
  lemma Progress<S(!new)>(interp: Interp<S>, capacity: nat, s: S, todo: seq<Request>, ks: seq<Step>) returns (k: Step)
    requires capacity >= 1
    requires InterpOk(interp) && RequestsOk(todo) && Executes(interp, capacity, Boot(s, todo), ks)
    ensures var b := Execute(interp, capacity, Boot(s, todo), ks);
            b.caller.parent.Failed? || Finished(b) || (k != PTimeout && Enabled(interp, capacity, b, k))
  {
    TracksBoot(interp, s, todo);
    var b := Execute(interp, capacity, Boot(s, todo), ks);
    var m, n := TracksRun(interp, capacity, Boot(s, todo), ks, Init(s, todo), Start(s, todo));
    k := TrackedProgress(interp, capacity, b, m, KeptRun(interp, Start(s, todo), n));
  }

  lemma TrackedProgress<S(!new)>(interp: Interp<S>, capacity: nat, b: State<S>, m: Sys<S>, d: Direct<S>)
    returns (k: Step)
    requires capacity >= 1 && Tracks(interp, b, m, d)
    ensures b.caller.parent.Failed? || Finished(b) || (k != PTimeout && Enabled(interp, capacity, b, k))
  {
    hide ParentReader, ParseCommand, Decode, CommandBytes, UnitBytes, Encode, WithinLimits, Sim, InterpOk, Lawful,
         Total;
    k := PWritten;
    if b.caller.parent.Failed? { return; }
    OneWay(interp, b, m, d);
    ChildExpects(interp, m, d);
    if m.commands != [] || m.reply.Some? {
      k := DownProgress(interp, capacity, b, m, d);
    } else if m.units != [] {
      k := UpProgress(interp, capacity, b, m, d);
    } else if b.p.writing {
      k := PWritten;
    } else if b.c.writing {
      k := CWritten;
    } else if m.child.Running? {
      k := CAct;
    } else {
      k := PIssue;
      AllQuiet(interp, m, d);
    }
  }

  /** Without messages under way and with the guest not running, both sides are idle. */
  lemma AllQuiet<S>(interp: Interp<S>, m: Sys<S>, d: Direct<S>)
    requires Sim(interp, m, d) && !m.caller.parent.Failed?
    requires m.commands == [] && m.reply.None? && m.units == [] && !m.child.Running?
    ensures m.caller.parent.Idle? && m.child.Waiting? && d.control.Ready? && d.todo == m.caller.todo
  {
  }

  lemma DownProgress<S(!new)>(interp: Interp<S>, capacity: nat, b: State<S>, m: Sys<S>, d: Direct<S>) returns (k: Step)
    requires capacity >= 1 && Tracks(interp, b, m, d) && !b.caller.parent.Failed?
    requires m.commands != [] || m.reply.Some?
    ensures k != PTimeout && Enabled(interp, capacity, b, k)
  {
    hide ParentReader, ParseCommand, Decode, CommandBytes, UnitBytes, Encode, WithinLimits, Sim, InterpOk, Lawful,
         CommandsBytes, DownFirst, Total;
    OneWay(interp, b, m, d);
    ChildExpects(interp, m, d);
    if b.p.writing && b.p.out == [] {
      k := PWritten;
    } else if b.p.writing && |b.down| < capacity {
      k := PWrite;
    } else if b.c.writing {
      k := CWritten;
    } else {
      ChildReader(interp, m, d, b.c.got);
      if b.c.got == DownFirst(m) {
        k := CAct;
      } else {
        k := CRead;
        DownSplit(interp, m, d);
        assert |b.c.got| + |b.down| + |b.p.out| == |DownBytes(m)| >= |DownFirst(m)| > |b.c.got|;
      }
    }
  }

  lemma UpProgress<S(!new)>(interp: Interp<S>, capacity: nat, b: State<S>, m: Sys<S>, d: Direct<S>) returns (k: Step)
    requires capacity >= 1 && Tracks(interp, b, m, d) && !b.caller.parent.Failed? && m.units != []
    ensures k != PTimeout && Enabled(interp, capacity, b, k)
  {
    hide ParentReader, ParseCommand, Decode, CommandBytes, UnitBytes, Encode, WithinLimits, Sim, InterpOk,
         UnitsBytes, Total;
    OneWay(interp, b, m, d);
    UnitExpected(interp, m, d);
    if b.c.writing && b.c.out == [] {
      k := CWritten;
    } else if b.c.writing && |b.up| < capacity {
      k := CWrite;
    } else if b.p.writing {
      k := PWritten;
    } else if !ParentReader(b.caller.parent, b.p.got).MoreUnit? {
      k := PAct;
    } else {
      k := PRead;
      UpSplit(m);
      ReaderAgrees(b.caller.parent, m.units[0], b.p.got);
      UnitReads(m.units[0], []);
      assert UnitBytes(m.units[0]) + [] == UnitBytes(m.units[0]) != b.p.got;
      assert |b.p.got| + |b.up| + |b.c.out| == |UnitsBytes(m.units)| >= |UpFirst(m)| > |b.p.got|;
    }
  }
}
