/** Every step of the two processes stands for at most one step of the kept session. */
module Refinement {
  import opened Base
  import opened Codec
  import opened CodecLaws
  import opened Session
  import opened Frames
  import opened Messages
  import opened Pipes

  // ----- Premises -----

  /** The callback returns values the wire can carry back. */
  ghost predicate FnOk(fn: HostFn) {
    forall ev, args :: fn(ev, args).Some? ==> Sendable(fn(ev, args).value)
  }

  ghost predicate RequestOk(r: Request) {
    CommandSendable(ToCommand(r)) && (r.DefineFunction? ==> FnOk(r.fn))
  }

  ghost predicate RequestsOk(rs: seq<Request>) {
    forall i :: 0 <= i < |rs| ==> RequestOk(rs[i])
  }

  ghost predicate RegistryOk(reg: Registry) {
    forall name | name in reg :: FnOk(reg[name])
  }

  /** The guest hands over values whose lengths fit C's `int`. */
  ghost predicate InterpOk<S(!new)>(interp: Interp<S>) {
    forall s ::
      && (interp.act(s).Callback? ==> WellFormed(interp.act(s).args))
      && (interp.act(s).Done? && interp.act(s).result.Some? ==> WellFormed(interp.act(s).result.value))
  }

  ghost predicate Lawful<S>(m: Sys<S>) {
    && RequestsOk(m.caller.todo) && RequestsOk(m.commands) && RegistryOk(m.caller.reg)
    && (m.reply.Some? ==> Sendable(m.reply.value))
    && forall i :: 0 <= i < |m.units| ==> UnitWellFormed(m.units[i])
  }

  // ----- What a step stands for -----

  function MessageStep<S>(interp: Interp<S>, m: Sys<S>, k: Step): Sys<S> {
    match k
    case PIssue => if CanIssue(m) then Issue(m) else m
    case PAct => if CanHandle(m) then Handle(m) else m
    case CAct =>
      if CanRun(m) then RunGuest(interp, m)
      else if CanAccept(m) then Accept(interp, m)
      else if CanResume(interp, m.child) && m.reply.Some? then Resume(interp, m)
      else m
    case PTimeout => m.(caller := m.caller.(parent := Failed(TimedOut)))
    case _ => m
  }

  /** The child's own actions and the parent's running of a callback are steps of the kept session. */
  predicate StepsSession<S>(interp: Interp<S>, m: Sys<S>, k: Step) {
    || (k.CAct? && CanRun(m) && !interp.act(m.child.s).Callback?)
    || (k.CAct? && !CanRun(m) && CanAccept(m))
    || (k.PAct? && CanHandle(m) && m.units[0].CallU? && WithinLimits(m.units[0]))
  }

  function SessionStep<S>(interp: Interp<S>, m: Sys<S>, d: Direct<S>, k: Step): Direct<S> {
    if StepsSession(interp, m, k) then KeptStep(interp, d) else d
  }

  lemma MessageStepSim<S(!new)>(interp: Interp<S>, m: Sys<S>, d: Direct<S>, k: Step)
    requires InterpOk(interp) && Lawful(m) && Sim(interp, m, d) && !m.caller.parent.Failed?
    ensures Sim(interp, MessageStep(interp, m, k), SessionStep(interp, m, d, k))
    ensures Lawful(MessageStep(interp, m, k))
  {
    StepLawful(interp, m, k);
    hide KeptStep, Handle, Issue, Accept, RunGuest, Resume, WithinLimits, DefineAll;
    if k.PTimeout? {
      assert m.caller.results <= d.results && m.caller.events <= d.events;
      return;
    }
    hide Sim;
    match k
    case PIssue => if CanIssue(m) { SimIssue(interp, m, d); }
    case PAct => if CanHandle(m) { SimHandle(interp, m, d); }
    case CAct =>
      if CanRun(m) { SimRun(interp, m, d); }
      else if CanAccept(m) { SimAccept(interp, m, d); }
      else if CanResume(interp, m.child) && m.reply.Some? { SimResume(interp, m, d); }
    case _ =>
  }

  lemma StepLawful<S(!new)>(interp: Interp<S>, m: Sys<S>, k: Step)
    requires InterpOk(interp) && Lawful(m)
    ensures Lawful(MessageStep(interp, m, k))
  {
    hide Sendable, WellFormed, WithinLimits;
    match k
    case PIssue => assert CanIssue(m) ==> RequestOk(m.caller.todo[0]);
    case PAct =>
    case CAct =>
    case _ =>
  }

  // ----- Where the simulation puts each side -----

  /** A unit that waits for the parent is one its position expects. */
  lemma UnitExpected<S>(interp: Interp<S>, m: Sys<S>, d: Direct<S>)
    requires Sim(interp, m, d) && !m.caller.parent.Failed? && m.units != []
    ensures Expects(m.caller.parent, m.units[0])
    ensures m.commands == [] && m.reply.None?
  {
  }

  /** A command waits only for a child in child_loop, a reply only for one in proxy_function_call. */
  lemma ChildExpects<S>(interp: Interp<S>, m: Sys<S>, d: Direct<S>)
    requires Sim(interp, m, d) && !m.caller.parent.Failed?
    ensures m.commands != [] ==> m.child.Waiting? && m.reply.None?
    ensures m.reply.Some? ==> CanResume(interp, m.child) && m.commands == []
    ensures m.child.Awaiting? ==> CanResume(interp, m.child)
  {
  }

  lemma {:induction false} UnitsBytesAppend(us: seq<Unit>, vs: seq<Unit>)
    ensures UnitsBytes(us + vs) == UnitsBytes(us) + UnitsBytes(vs)
  {
    hide UnitBytes;
    if us == [] {
      assert us + vs == vs;
    } else {
      assert (us + vs)[1..] == us[1..] + vs;
      UnitsBytesAppend(us[1..], vs);
      Assoc(UnitBytes(us[0]), UnitsBytes(us[1..]), UnitsBytes(vs));
    }
  }

  lemma {:induction false} CommandsBytesAppend(rs: seq<Request>, r: Request)
    ensures CommandsBytes(rs + [r]) == CommandsBytes(rs) + CommandBytes(ToCommand(r))
  {
    hide CommandBytes;
    if rs == [] {
      assert rs + [r] == [r];
      assert CommandsBytes([r]) == CommandBytes(ToCommand(r)) + [];
    } else {
      assert (rs + [r])[1..] == rs[1..] + [r];
      CommandsBytesAppend(rs[1..], r);
      Assoc(CommandBytes(ToCommand(rs[0])), CommandsBytes(rs[1..]), CommandBytes(ToCommand(r)));
    }
  }

  /** A prefix of `first + rest` that is at most `first`, when more bytes follow it. */
  lemma PrefixGrows(got: seq<byte>, more: seq<byte>, first: seq<byte>, rest: seq<byte>)
    requires got + more == first + rest && got < first
    ensures more != [] && got + [more[0]] <= first
  {
    assert (got + more)[|got|] == more[0] == first[|got|];
  }

  lemma CancelPrefix(a: seq<byte>, x: seq<byte>, y: seq<byte>)
    requires a + x == a + y
    ensures x == y
  {
    assert x == (a + x)[|a|..];
    assert y == (a + y)[|a|..];
  }

  // ----- The parent's steps -----

  lemma IssueRefines<S>(interp: Interp<S>, b: State<S>, m: Sys<S>, d: Direct<S>)
    requires Rep(b, m) && Sim(interp, m, d)
    requires !b.caller.parent.Failed? && b.caller.parent.Idle? && !b.p.writing && b.caller.todo != []
    ensures var p := Port([], CommandBytes(ToCommand(b.caller.todo[0])), true);
            Rep(b.(caller := Issued(b.caller), p := p), Issue(m))
  {
    hide CommandBytes, UnitBytes, Issued, UnitsBytes;
    var req := b.caller.todo[0];
    CommandsBytesAppend(m.commands, req);
    ChildExpects(interp, m, d);
    if m.units != [] { UnitExpected(interp, m, d); }
    assert b.c.got + (b.down + []) + CommandBytes(ToCommand(req)) == b.c.got + (b.down + CommandBytes(ToCommand(req)));
  }

  lemma WriteRefines<S>(b: State<S>, m: Sys<S>)
    requires Rep(b, m) && !b.caller.parent.Failed?
    ensures b.p.writing && b.p.out != [] ==> Rep(b.(down := b.down + [b.p.out[0]], p := b.p.(out := b.p.out[1..])), m)
    ensures b.c.writing && b.c.out != [] ==> Rep(b.(up := b.up + [b.c.out[0]], c := b.c.(out := b.c.out[1..])), m)
  {
    hide UnitsBytes, UpFirst, DownBytes, DownFirst;
    if b.p.out != [] { assert (b.down + [b.p.out[0]]) + b.p.out[1..] == b.down + b.p.out; }
    if b.c.out != [] { assert (b.up + [b.c.out[0]]) + b.c.out[1..] == b.up + b.c.out; }
  }

  lemma ReaderAgrees(p: Parent, u: Unit, s: seq<byte>)
    requires Expects(p, u)
    ensures ParentReader(p, s) == ParseLike(u, s)
  {
    hide ParseFrame, ParseVal, ParseFlag;
  }

  lemma UpSplit<S>(m: Sys<S>)
    requires m.units != []
    ensures UnitsBytes(m.units) == UpFirst(m) + UnitsBytes(m.units[1..])
  {
    hide UnitBytes;
  }

  /** The parent's reader wants more exactly while the unit in front is incomplete; it then takes the next byte of
      it. */
  lemma ParentReadRefines<S>(interp: Interp<S>, b: State<S>, m: Sys<S>, d: Direct<S>)
    requires Rep(b, m) && Sim(interp, m, d) && Lawful(m)
    requires !b.caller.parent.Failed? && !b.p.writing && ParentReads(b.caller)
    requires ParentReader(b.caller.parent, b.p.got).MoreUnit? && b.up != []
    ensures Rep(b.(p := b.p.(got := b.p.got + [b.up[0]]), up := b.up[1..]), m)
  {
    hide UnitBytes, UnitsBytes, ParentReader, DownBytes, DownFirst, Sim, ParseLike, WithinLimits;
    assert m.units != [] by { assert UnitsBytes([]) == [] by { NoUnits(); } }
    var u := m.units[0];
    UnitExpected(interp, m, d);
    ReaderAgrees(b.caller.parent, u, b.p.got);
    UpSplit(m);
    UnitReads(u, []);
    assert UnitBytes(u) + [] == UnitBytes(u);
    assert b.p.got != UnitBytes(u) && UpFirst(m) == UnitBytes(u);
    PrefixGrows(b.p.got, b.up + b.c.out, UpFirst(m), UnitsBytes(m.units[1..]));
    assert b.p.got + [b.up[0]] + (b.up[1..] + b.c.out) == b.p.got + (b.up + b.c.out);
  }

  lemma NoUnits()
    ensures UnitsBytes([]) == []
  {
  }

  /** When the parent acts it has read exactly the unit in front, or enough of it to see that it is over the limits. */
  lemma ParentHasUnit<S>(interp: Interp<S>, b: State<S>, m: Sys<S>, d: Direct<S>)
    requires Rep(b, m) && Sim(interp, m, d) && Lawful(m)
    requires !b.caller.parent.Failed? && !b.p.writing && ParentReads(b.caller)
    requires !ParentReader(b.caller.parent, b.p.got).MoreUnit?
    ensures CanHandle(m)
    ensures if WithinLimits(m.units[0])
            then
              && b.p.got == UnitBytes(m.units[0])
              && ParentReader(b.caller.parent, b.p.got) == GotUnit(m.units[0], |b.p.got|)
            else ParentReader(b.caller.parent, b.p.got).BadUnit?
  {
    hide UnitBytes, UnitsBytes, ParentReader, Sim, ParseLike, WithinLimits;
    assert b.p.got != [] by { NothingRead(b.caller.parent); }
    var u := m.units[0];
    UnitExpected(interp, m, d);
    ReaderAgrees(b.caller.parent, u, b.p.got);
    UnitReads(u, []);
    assert UnitBytes(u) + [] == UnitBytes(u);
    if b.p.got != UnitBytes(u) { UnitCutShort(u, b.p.got); }
  }

  lemma NothingRead(p: Parent)
    ensures ParentReader(p, []).MoreUnit?
  {
  }

  lemma ParentActRefines<S>(interp: Interp<S>, b: State<S>, m: Sys<S>, d: Direct<S>)
    requires Rep(b, m) && Sim(interp, m, d) && Lawful(m)
    requires !b.caller.parent.Failed? && !b.p.writing && ParentReads(b.caller)
    requires !ParentReader(b.caller.parent, b.p.got).MoreUnit?
    ensures CanHandle(m) && Rep(ParentAct(b), Handle(m))
  {
    hide UnitBytes, UnitsBytes, ParentReader, Sim, WithinLimits, CommandsBytes, Encode;
    ParentHasUnit(interp, b, m, d);
    UnitExpected(interp, m, d);
    UpSplit(m);
    if WithinLimits(m.units[0]) {
      var u := m.units[0];
      CancelPrefix(b.p.got, b.up + b.c.out, UnitsBytes(m.units[1..]));
      assert [] + (b.up + b.c.out) == UnitsBytes(m.units[1..]);
      assert CommandsBytes([]) == [] by { NoCommands(); }
      assert b.c.got == [] && b.down == [] && b.p.out == [];
      var ret := Serve(b.caller, u).reply;
      assert ret.Some? ==> [] + ([] + Encode(ret.value)) == [] + Encode(ret.value);
    }
  }

  lemma NoCommands()
    ensures CommandsBytes([]) == []
  {
  }

  // ----- The child's steps -----

  lemma DownSplit<S>(interp: Interp<S>, m: Sys<S>, d: Direct<S>)
    requires Sim(interp, m, d) && !m.caller.parent.Failed?
    ensures m.commands != [] ==> DownBytes(m) == DownFirst(m) + CommandsBytes(m.commands[1..])
    ensures m.commands == [] ==> DownBytes(m) == DownFirst(m) + []
  {
    hide CommandBytes, Encode, Sim;
    ChildExpects(interp, m, d);
    if m.commands != [] {
      Assoc(DownFirst(m), CommandsBytes(m.commands[1..]), []);
      assert CommandsBytes(m.commands) + [] == CommandsBytes(m.commands);
    }
  }

  /** The child's readers at the message in front: complete exactly when all of it has been read. */
  lemma ChildReader<S>(interp: Interp<S>, m: Sys<S>, d: Direct<S>, got: seq<byte>)
    requires Sim(interp, m, d) && Lawful(m) && !m.caller.parent.Failed? && got <= DownFirst(m)
    ensures m.child.Waiting? && m.commands != [] ==>
              ParseCommand(got)
              == if got == DownFirst(m) then GotCommand(ToCommand(m.commands[0]), |got|) else MoreCommand
    ensures m.child.Awaiting? && m.reply.Some? ==>
              Decode(got, 0, READ_VALUE_NOLIMIT)
              == if got == DownFirst(m) then Ok(m.reply.value, |got|, Total(m.reply.value)) else More
    ensures got == [] ==> ParseCommand(got).MoreCommand? && Decode(got, 0, READ_VALUE_NOLIMIT).More?
  {
    hide CommandBytes, Encode, ParseCommand, Decode, Sim, Total;
    ChildExpects(interp, m, d);
    assert got == [] ==> ParseCommand(got).MoreCommand? && Decode(got, 0, READ_VALUE_NOLIMIT).More? by {
      ChildReadNothing();
    }
    if m.commands != [] {
      var c := ToCommand(m.commands[0]);
      assert RequestOk(m.commands[0]);
      if got == DownFirst(m) {
        CommandReads(c, []);
        assert CommandBytes(c) + [] == got;
      } else {
        CommandCutShort(c, got);
      }
    } else if m.reply.Some? {
      var v := m.reply.value;
      if got == DownFirst(m) {
        RoundTrip(v, [], 0, READ_VALUE_NOLIMIT);
        assert Encode(v) + [] == got;
      } else {
        CutShort(v, got, 0, READ_VALUE_NOLIMIT);
      }
    }
  }

  lemma ChildReadNothing()
    ensures ParseCommand([]).MoreCommand? && Decode([], 0, READ_VALUE_NOLIMIT).More?
  {
  }

  lemma ChildReadRefines<S>(interp: Interp<S>, b: State<S>, m: Sys<S>, d: Direct<S>)
    requires Rep(b, m) && Sim(interp, m, d) && Lawful(m)
    requires !b.caller.parent.Failed? && !b.c.writing && ChildWantsMore(b.child, b.c.got) && b.down != []
    ensures Rep(b.(c := b.c.(got := b.c.got + [b.down[0]]), down := b.down[1..]), m)
  {
    hide CommandBytes, Encode, ParseCommand, Decode, Sim, UnitsBytes, UpFirst, CommandsBytes, DownFirst;
    ChildExpects(interp, m, d);
    DownSplit(interp, m, d);
    ChildReader(interp, m, d, b.c.got);
    assert m.commands != [] || m.reply.Some? by { assert CommandsBytes([]) == [] by { NoCommands(); } }
    assert b.c.got != DownFirst(m);
    var later := if m.commands != [] then CommandsBytes(m.commands[1..]) else [];
    PrefixGrows(b.c.got, b.down + b.p.out, DownFirst(m), later);
    assert b.c.got + [b.down[0]] + (b.down[1..] + b.p.out) == b.c.got + (b.down + b.p.out);
  }

  /** The units of a turn are well-formed and go to the end of the queue. */
  lemma TurnRefines<S>(b: State<S>, m: Sys<S>, t: Turn<S>, m': Sys<S>)
    requires Rep(b, m) && !b.caller.parent.Failed? && !b.c.writing
    requires m' == m.(child := t.child, units := m.units + t.units, commands := m'.commands, reply := m'.reply)
    requires b.down + b.p.out == DownBytes(m')
    ensures Rep(AfterTurn(b, t), m')
  {
    hide UnitBytes, DownBytes, UnitsBytes, DownFirst;
    TurnUp(b, m, t);
    assert UnitsBytes([]) == [] by { NoUnits(); }
    assert [] + (b.down + b.p.out) == b.down + b.p.out;
  }

  lemma TurnUp<S>(b: State<S>, m: Sys<S>, t: Turn<S>)
    requires Rep(b, m) && !b.caller.parent.Failed? && !b.c.writing
    ensures b.p.got + (b.up + UnitsBytes(t.units)) == UnitsBytes(m.units + t.units)
    ensures b.p.got <= UpFirst(m.(units := m.units + t.units))
  {
    hide UnitBytes, DownBytes, UnitsBytes, DownFirst;
    UnitsBytesAppend(m.units, t.units);
    assert b.up + b.c.out == b.up;
    Assoc(b.p.got, b.up, UnitsBytes(t.units));
    assert m.units != [] ==> (m.units + t.units)[0] == m.units[0];
  }

  lemma ChildActRefines<S>(interp: Interp<S>, b: State<S>, m: Sys<S>, d: Direct<S>)
    requires Rep(b, m) && Sim(interp, m, d) && Lawful(m)
    requires !b.caller.parent.Failed? && !b.c.writing && ChildCanAct(interp, b.child, b.c.got)
    ensures CanRun(m) || CanAccept(m) || (CanResume(interp, m.child) && m.reply.Some?)
    ensures Rep(ChildAct(interp, b), MessageStep(interp, m, CAct))
  {
    hide CommandBytes, UnitBytes, Encode, ParseCommand, Decode, Sim, UnitsBytes, CommandsBytes, Total;
    ChildExpects(interp, m, d);
    DownSplit(interp, m, d);
    ChildReader(interp, m, d, b.c.got);
    NoCommands();
    if m.child.Running? {
      assert [] + (b.down + b.p.out) == b.down + b.p.out;
      TurnRefines(b, m, Act(interp, m.child), RunGuest(interp, m));
    } else {
      assert b.c.got == DownFirst(m) != [];
      CancelPrefix(b.c.got, b.down + b.p.out, if m.commands != [] then CommandsBytes(m.commands[1..]) else []);
      if m.child.Waiting? {
        assert CommandsBytes(m.commands[1..]) + [] == CommandsBytes(m.commands[1..]);
        TurnRefines(b, m, Obey(interp, m.child.s, ToCommand(m.commands[0])), Accept(interp, m));
      } else {
        assert [] + (b.down + b.p.out) == [];
      }
    }
  }

  // ----- Any step -----

  lemma StepRefines<S(!new)>(
    interp: Interp<S>, capacity: nat, b: State<S>, m: Sys<S>, d: Direct<S>, k: Step)
    requires InterpOk(interp) && Lawful(m) && Rep(b, m) && Sim(interp, m, d)
    requires Enabled(interp, capacity, b, k)
    ensures Rep(Take(interp, capacity, b, k), MessageStep(interp, m, k))
    ensures Sim(interp, MessageStep(interp, m, k), SessionStep(interp, m, d, k))
    ensures Lawful(MessageStep(interp, m, k))
  {
    MessageStepSim(interp, m, d, k);
    hide Sim, InterpOk, Lawful, SessionStep, ParentAct, ChildAct, ParentReader, ChildWantsMore, ChildCanAct;
    match k
    case PIssue => IssueRefines(interp, b, m, d);
    case PRead => ParentReadRefines(interp, b, m, d);
    case PAct => ParentActRefines(interp, b, m, d);
    case CRead => ChildReadRefines(interp, b, m, d);
    case CAct => ChildActRefines(interp, b, m, d);
    case PWrite => WriteRefines(b, m);
    case CWrite => WriteRefines(b, m);
    case _ => hide UnitsBytes, DownBytes;
  }
}
