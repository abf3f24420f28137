/** The two processes of the proxy, byte by byte, over two pipes of bounded capacity. */
module Pipes {
  import opened Base
  import opened Codec
  import opened Session
  import opened Frames
  import opened Messages

  /** One process's end of the pipes: the bytes of the message it is reading, and those it has yet to write. */
  datatype Port = Port(got: seq<byte>, out: seq<byte>, writing: bool)

  const QUIET := Port([], [], false)

  /** `down` leads to the child, `up` to the parent. */
  datatype State<!S> = State(
    caller: Caller, p: Port, child: Child<S>, c: Port, down: seq<byte>, up: seq<byte>)

  function Boot<S>(s: S, todo: seq<Request>): State<S> {
    State(Caller(Idle, todo, [], [], map[]), QUIET, Waiting(s), QUIET, [], [])
  }

  /** The steps of parent (P) and child (C): take up a request, write or read one byte, finish a write,
      act on what has been read or on the guest's next action, or run out of time while reading. */
  datatype Step = PIssue | PWrite | PWritten | PRead | PAct | PTimeout | CWrite | CWritten | CRead | CAct

  /** The reader the parent is in. */
  function ParentReader(p: Parent, s: seq<byte>): UnitParse {
    match p
    case Serving(_) => ParseFrame(s)
    case Resulting(Calling) => ParseVal(s)
    case _ => ParseFlag(s)
  }

  predicate ParentReads(c: Caller) {
    c.parent.Serving? || c.parent.Resulting? || c.parent.Asking?
  }

  predicate ChildWantsMore<S>(child: Child<S>, got: seq<byte>) {
    match child
    case Waiting(_) => ParseCommand(got).MoreCommand?
    case Awaiting(_, _) => Decode(got, 0, READ_VALUE_NOLIMIT).More?
    case Running(_, _) => false
  }

  predicate ChildCanAct<S>(interp: Interp<S>, child: Child<S>, got: seq<byte>) {
    match child
    case Waiting(_) => ParseCommand(got).GotCommand? || ParseCommand(got).JunkCommand?
    case Awaiting(_, _) => CanResume(interp, child) && Decode(got, 0, READ_VALUE_NOLIMIT).Ok?
    case Running(_, _) => true
  }

  /** Which steps are possible. Nothing happens after a failure. */
  predicate Enabled<S>(interp: Interp<S>, capacity: nat, b: State<S>, k: Step) {
    && !b.caller.parent.Failed?
    && match k {
      case PIssue => b.caller.parent.Idle? && !b.p.writing && b.caller.todo != []
      case PWrite => b.p.writing && b.p.out != [] && |b.down| < capacity
      case PWritten => b.p.writing && b.p.out == []
      case PRead =>
        !b.p.writing && ParentReads(b.caller) && ParentReader(b.caller.parent, b.p.got).MoreUnit? && b.up != []
      case PAct => !b.p.writing && ParentReads(b.caller) && !ParentReader(b.caller.parent, b.p.got).MoreUnit?
      case PTimeout => !b.p.writing && ParentReads(b.caller) && ParentReader(b.caller.parent, b.p.got).MoreUnit?
      case CWrite => b.c.writing && b.c.out != [] && |b.up| < capacity
      case CWritten => b.c.writing && b.c.out == []
      case CRead => !b.c.writing && ChildWantsMore(b.child, b.c.got) && b.down != []
      case CAct => !b.c.writing && ChildCanAct(interp, b.child, b.c.got)
    }
  }

  function Take<S>(interp: Interp<S>, capacity: nat, b: State<S>, k: Step): State<S>
    requires Enabled(interp, capacity, b, k)
  {
    match k
    case PIssue => b.(caller := Issued(b.caller), p := Port([], CommandBytes(ToCommand(b.caller.todo[0])), true))
    case PWrite => b.(down := b.down + [b.p.out[0]], p := b.p.(out := b.p.out[1..]))
    case PWritten => b.(p := b.p.(writing := false))
    case PRead => b.(p := b.p.(got := b.p.got + [b.up[0]]), up := b.up[1..])
    case PAct => ParentAct(b)
    case PTimeout => b.(caller := b.caller.(parent := Failed(TimedOut)))
    case CWrite => b.(up := b.up + [b.c.out[0]], c := b.c.(out := b.c.out[1..]))
    case CWritten => b.(c := b.c.(writing := false))
    case CRead => b.(c := b.c.(got := b.c.got + [b.down[0]]), down := b.down[1..])
    case CAct => ChildAct(interp, b)
  }

  function ParentAct<S>(b: State<S>): State<S>
    requires ParentReads(b.caller) && !ParentReader(b.caller.parent, b.p.got).MoreUnit?
  {
    match ParentReader(b.caller.parent, b.p.got)
    case BadUnit => b.(caller := b.caller.(parent := Failed(OverLimit)))
    case Junk => b.(p := b.p.(got := b.p.got[1..]))
    case GotUnit(u, n) =>
      var service := Serve(b.caller, u);
      b.(caller := service.caller,
         p := if service.reply.Some? then Port([], Encode(service.reply.value), true) else QUIET)
  }

  function ChildAct<S>(interp: Interp<S>, b: State<S>): State<S>
    requires ChildCanAct(interp, b.child, b.c.got)
  {
    match b.child
    case Waiting(s) => (
      match ParseCommand(b.c.got)
      case GotCommand(cmd, n) => AfterTurn(b, Obey(interp, s, cmd))
      case _ => b.(c := b.c.(got := b.c.got[1..])))
    case Awaiting(_, _) =>
      b.(child := Resumed(interp, b.child, Decode(b.c.got, 0, READ_VALUE_NOLIMIT).v), c := QUIET)
    case Running(_, _) => AfterTurn(b, Act(interp, b.child))
  }

  function AfterTurn<S>(b: State<S>, t: Turn<S>): State<S> {
    b.(child := t.child, c := Port([], UnitsBytes(t.units), t.units != []))
  }

  function UnitsBytes(us: seq<Unit>): seq<byte> {
    if us == [] then [] else UnitBytes(us[0]) + UnitsBytes(us[1..])
  }

  function CommandsBytes(reqs: seq<Request>): seq<byte> {
    if reqs == [] then [] else CommandBytes(ToCommand(reqs[0])) + CommandsBytes(reqs[1..])
  }

  // ----- Bytes stand for messages -----

  /** All that is on its way to the child. */
  function DownBytes<S>(m: Sys<S>): seq<byte> {
    CommandsBytes(m.commands) + if m.reply.Some? then Encode(m.reply.value) else []
  }

  /** The message the child is to read next. */
  function DownFirst<S>(m: Sys<S>): seq<byte> {
    if m.commands != [] then CommandBytes(ToCommand(m.commands[0]))
    else if m.reply.Some? then Encode(m.reply.value) else []
  }

  function UpFirst<S>(m: Sys<S>): seq<byte> {
    if m.units == [] then [] else UnitBytes(m.units[0])
  }

  predicate PortOk(p: Port) {
    if p.writing then p.got == [] else p.out == []
  }

  /** The unread and unwritten bytes are exactly the messages under way, and each reader has at most
      the first message that is meant for it. */
  ghost predicate Rep<S>(b: State<S>, m: Sys<S>) {
    && b.caller == m.caller
    && (b.caller.parent.Failed? ||
        (&& b.child == m.child
         && PortOk(b.p) && PortOk(b.c)
         && (b.child.Running? ==> b.c.got == [])
         && b.p.got + (b.up + b.c.out) == UnitsBytes(m.units) && b.p.got <= UpFirst(m)
         && b.c.got + (b.down + b.p.out) == DownBytes(m) && b.c.got <= DownFirst(m)))
  }

  // ----- Runs -----

  /** The steps can be taken one after the other: one interleaving of the two processes. */
  predicate Executes<S>(interp: Interp<S>, capacity: nat, b: State<S>, ks: seq<Step>)
    decreases |ks|
  {
    || ks == []
    || (Enabled(interp, capacity, b, ks[0]) && Executes(interp, capacity, Take(interp, capacity, b, ks[0]), ks[1..]))
  }

  function Execute<S>(interp: Interp<S>, capacity: nat, b: State<S>, ks: seq<Step>): State<S>
    requires Executes(interp, capacity, b, ks)
    decreases |ks|
  {
    if ks == [] then b else Execute(interp, capacity, Take(interp, capacity, b, ks[0]), ks[1..])
  }

  /** One of the two processes. */
  datatype Side = OfParent | OfChild

  /** The bytes it reads in a step, and in the course of a run. */
  function Read1<S>(side: Side, b: State<S>, k: Step): seq<byte> {
    match side
    case OfParent => if k.PRead? && b.up != [] then [b.up[0]] else []
    case OfChild => if k.CRead? && b.down != [] then [b.down[0]] else []
  }

  function Taken<S>(side: Side, interp: Interp<S>, capacity: nat, b: State<S>, ks: seq<Step>): seq<byte>
    requires Executes(interp, capacity, b, ks)
    decreases |ks|
  {
    if ks == [] then [] else
      Read1(side, b, ks[0]) + Taken(side, interp, capacity, Take(interp, capacity, b, ks[0]), ks[1..])
  }

  /** The bytes it writes in a step, and in the course of a run. */
  function Written1<S>(side: Side, b: State<S>, k: Step): seq<byte> {
    match side
    case OfParent => if k.PWrite? && b.p.out != [] then [b.p.out[0]] else []
    case OfChild => if k.CWrite? && b.c.out != [] then [b.c.out[0]] else []
  }

  function Given<S>(side: Side, interp: Interp<S>, capacity: nat, b: State<S>, ks: seq<Step>): seq<byte>
    requires Executes(interp, capacity, b, ks)
    decreases |ks|
  {
    if ks == [] then [] else
      Written1(side, b, ks[0]) + Given(side, interp, capacity, Take(interp, capacity, b, ks[0]), ks[1..])
  }

  /** Everything asked has been answered and nothing is under way. */
  predicate Finished<S>(b: State<S>) {
    && b.caller.parent.Idle? && b.caller.todo == [] && b.child.Waiting?
    && b.p == QUIET && b.c == QUIET && b.down == [] && b.up == []
  }
}
