/** The child that takes steps in Pipes and the turn of child_loop in ChildSide are the same program: fed with the
    bytes that the child of any run has read, the turn writes what that child writes and leaves the same interpreter. */
module SameChild {
  import opened Base
  import opened Codec
  import opened CodecLaws
  import opened Session
  import opened Frames
  import opened Messages
  import opened Pipes
  import opened Refinement
  import opened ProxyTheorems
  import opened ChildSide

  /** How often the guest acts. */
  function Acts1<S>(b: State<S>, k: Step): nat {
    if k.CAct? && b.child.Running? then 1 else 0
  }

  function Acts<S>(interp: Interp<S>, capacity: nat, b: State<S>, ks: seq<Step>): nat
    requires Executes(interp, capacity, b, ks)
    decreases |ks|
  {
    if ks == [] then 0 else Acts1(b, ks[0]) + Acts(interp, capacity, Take(interp, capacity, b, ks[0]), ks[1..])
  }

  /** In the course of the run the child takes up one command if it is `due`, and otherwise none. */
  predicate OneTurn<S>(interp: Interp<S>, capacity: nat, b: State<S>, ks: seq<Step>, due: bool)
    requires Executes(interp, capacity, b, ks)
    decreases |ks|
  {
    if ks == [] then !due else
      var b' := Take(interp, capacity, b, ks[0]);
      if ks[0].CAct? && b.child.Waiting? then due && OneTurn(interp, capacity, b', ks[1..], false)
      else OneTurn(interp, capacity, b', ks[1..], due)
  }

  /** What the rest of the turn does from the child's position in the run, if `more` follows. Bytes it is still
      writing come first. */
  function TurnFrom<S>(interp: Interp<S>, b: State<S>, due: bool, more: seq<byte>, fuel: nat): GuestRun<S> {
    WrittenBefore(b.c.out, RestOfTurn(interp, b.child, due, b.c.got + more, fuel))
  }

  function RestOfTurn<S>(interp: Interp<S>, child: Child<S>, due: bool, data: seq<byte>, fuel: nat): GuestRun<S> {
    match child
    case Waiting(s) => if due then CommandStream(interp, s, data, fuel) else Ended(s, [], data)
    case Running(_, _) => GuestStream(interp, child, data, fuel)
    case Awaiting(_, _) =>
      if !CanResume(interp, child) then Cut else
        match Decode(data, 0, READ_VALUE_NOLIMIT)
        case Ok(v, n, _) => GuestStream(interp, Resumed(interp, child, v), data[n..], fuel)
        case _ => Cut
  }

  lemma AcceptKeepsTurn<S>(interp: Interp<S>, b: State<S>, more: seq<byte>, fuel: nat)
    requires b.child.Waiting? && b.c.out == []
    requires ParseCommand(b.c.got).GotCommand? && ParseCommand(b.c.got).n == |b.c.got|
    ensures TurnFrom(interp, b, true, more, fuel) == TurnFrom(interp, ChildAct(interp, b), false, more, fuel)
  {
    hide ParseCommand, GuestStream, UnitsBytes;
    CommandExtends(b.c.got, more);
    assert (b.c.got + more)[|b.c.got|..] == more && [] + more == more;
    NothingBefore(CommandStream(interp, b.child.s, b.c.got + more, fuel));
    var t := Obey(interp, b.child.s, ParseCommand(b.c.got).c);
    assert UnitsBytes(t.units) + [] == UnitsBytes(t.units);
    if t.child.Running? {
      assert UnitsBytes([]) == [] by { NoUnits(); }
      NothingBefore(GuestStream(interp, t.child, more, fuel));
    }
  }

  // ----- Carrying out a command -----

  lemma ActKeepsTurn<S>(interp: Interp<S>, b: State<S>, more: seq<byte>, fuel: nat)
    requires b.child.Running? && b.c.got == [] && b.c.out == []
    ensures TurnFrom(interp, b, false, more, fuel + 1) == TurnFrom(interp, ChildAct(interp, b), false, more, fuel)
  {
    hide Decode, UnitsBytes;
    assert [] + more == more;
    NothingBefore(GuestStream(interp, b.child, more, fuel + 1));
    var t := Act(interp, b.child);
    assert UnitsBytes(t.units) + [] == UnitsBytes(t.units);
  }

  lemma ResumeKeepsTurn<S>(interp: Interp<S>, b: State<S>, due: bool, more: seq<byte>, fuel: nat)
    requires b.child.Awaiting? && CanResume(interp, b.child) && b.c.out == []
    requires Decode(b.c.got, 0, READ_VALUE_NOLIMIT).Ok? && Decode(b.c.got, 0, READ_VALUE_NOLIMIT).n == |b.c.got|
    ensures TurnFrom(interp, b, due, more, fuel) == TurnFrom(interp, ChildAct(interp, b), due, more, fuel)
  {
    hide Decode, GuestStream;
    Extends(b.c.got, more, 0, READ_VALUE_NOLIMIT);
    assert (b.c.got + more)[|b.c.got|..] == more && [] + more == more;
  }

  lemma WriteKeepsTurn<S>(interp: Interp<S>, b: State<S>, b': State<S>, due: bool, more: seq<byte>, fuel: nat)
    requires b.c.out != [] && b'.child == b.child && b'.c.got == b.c.got && b'.c.out == b.c.out[1..]
    ensures TurnFrom(interp, b, due, more, fuel) == WrittenBefore([b.c.out[0]], TurnFrom(interp, b', due, more, fuel))
  {
    hide RestOfTurn;
    BeforeTwice([b.c.out[0]], b.c.out[1..], RestOfTurn(interp, b.child, due, b.c.got + more, fuel));
    assert [b.c.out[0]] + b.c.out[1..] == b.c.out;
  }

  lemma ReadKeepsTurn<S>(interp: Interp<S>, b: State<S>, due: bool, more: seq<byte>, fuel: nat)
    requires b.down != []
    ensures TurnFrom(interp, b, due, [b.down[0]] + more, fuel)
         == TurnFrom(interp, b.(c := b.c.(got := b.c.got + [b.down[0]]), down := b.down[1..]), due, more, fuel)
  {
    hide RestOfTurn;
    Assoc(b.c.got, [b.down[0]], more);
  }

  lemma SameTurn<S>(interp: Interp<S>, b: State<S>, b': State<S>, due: bool, more: seq<byte>, fuel: nat)
    requires b.child == b'.child && b.c.got == b'.c.got && b.c.out == b'.c.out
    ensures TurnFrom(interp, b, due, more, fuel) == TurnFrom(interp, b', due, more, fuel)
  {
  }

  lemma ParentKeepsChild<S>(b: State<S>)
    requires ParentReads(b.caller) && !ParentReader(b.caller.parent, b.p.got).MoreUnit?
    ensures ParentAct(b).child == b.child && ParentAct(b).c == b.c
  {
    hide ParentReader;
  }

  lemma StepKeepsTurn<S>(interp: Interp<S>, capacity: nat, b: State<S>, k: Step, due: bool, more: seq<byte>, fuel: nat)
    requires InSync(interp, b) && PortOk(b.c) && (b.child.Running? ==> b.c.got == []) && (due ==> b.child.Waiting?)
    requires Enabled(interp, capacity, b, k) && (k.CAct? && b.child.Waiting? ==> due)
    ensures TurnFrom(interp, b, due, Read1(OfChild, b, k) + more, fuel + Acts1(b, k))
         == WrittenBefore(Written1(OfChild, b, k),
                          TurnFrom(interp, Take(interp, capacity, b, k), due && !k.CAct?, more, fuel))
    ensures due && !k.CAct? ==> Take(interp, capacity, b, k).child == b.child
  {
    hide ParentReader, ParseCommand, Decode, TurnFrom, ParentAct, ChildAct, CommandBytes, UnitBytes, Issued;
    var b' := Take(interp, capacity, b, k);
    NothingBefore(TurnFrom(interp, b', due && !k.CAct?, more, fuel));
    assert [] + more == more;
    match k
    case CAct =>
      if b.child.Waiting? {
        AcceptKeepsTurn(interp, b, more, fuel);
      } else if b.child.Running? {
        ActKeepsTurn(interp, b, more, fuel);
      } else {
        ResumeKeepsTurn(interp, b, due, more, fuel);
      }
    case CRead => ReadKeepsTurn(interp, b, due, more, fuel);
    case CWrite => WriteKeepsTurn(interp, b, b', due, more, fuel);
    case PAct => ParentKeepsChild(b); SameTurn(interp, b, b', due, more, fuel);
    case _ => SameTurn(interp, b, b', due, more, fuel);
  }

  lemma {:induction false} RunKeepsTurn<S(!new)>(
    interp: Interp<S>, capacity: nat, b: State<S>, m: Sys<S>, d: Direct<S>, ks: seq<Step>,
    due: bool, more: seq<byte>, fuel: nat)
    requires Tracks(interp, b, m, d) && Executes(interp, capacity, b, ks)
    requires OneTurn(interp, capacity, b, ks, due) && (due ==> b.child.Waiting?)
    ensures TurnFrom(interp, b, due, Taken(OfChild, interp, capacity, b, ks) + more,
                     fuel + Acts(interp, capacity, b, ks))
         == WrittenBefore(Given(OfChild, interp, capacity, b, ks),
                          TurnFrom(interp, Execute(interp, capacity, b, ks), false, more, fuel))
    decreases |ks|
  {
    hide TurnFrom, WrittenBefore, Read1, Written1, Acts1, Tracks, Enabled, Take, InSync, PortOk, MessageStep,
         SessionStep;
    if ks == [] {
      assert [] + more == more;
      NothingBefore(TurnFrom(interp, b, due, more, fuel));
    } else {
      var k, rest := ks[0], ks[1..];
      var due' := due && !k.CAct?;
      TracksOn(interp, capacity, b, m, d, k);
      var b', m', d' := Take(interp, capacity, b, k), MessageStep(interp, m, k), SessionStep(interp, m, d, k);
      var taken, given := Taken(OfChild, interp, capacity, b', rest), Given(OfChild, interp, capacity, b', rest);
      var acts := Acts(interp, capacity, b', rest);
      StepKeepsTurn(interp, capacity, b, k, due, taken + more, fuel + acts);
      RunKeepsTurn(interp, capacity, b', m', d', rest, due', more, fuel);
      Assoc(Read1(OfChild, b, k), taken, more);
      BeforeTwice(Written1(OfChild, b, k), given,
                  TurnFrom(interp, Execute(interp, capacity, b', rest), false, more, fuel));
    }
  }

  /** For every session and every interleaving: from a child that waits for a command to one that has carried it out,
      the child has read, written and done to its interpreter exactly what one turn of child_loop does with these
      bytes, and what it has read beyond them is the beginning of its next command. */
  lemma CommandIsTurn<S(!new)>(
    interp: Interp<S>, capacity: nat, s: S, todo: seq<Request>, before: seq<Step>, ks: seq<Step>, more: seq<byte>)
    requires InterpOk(interp) && RequestsOk(todo) && Executes(interp, capacity, Boot(s, todo), before)
    requires var b := Execute(interp, capacity, Boot(s, todo), before);
             && b.child.Waiting? && b.c.got == [] && b.c.out == []
             && Executes(interp, capacity, b, ks) && OneTurn(interp, capacity, b, ks, true)
             && var e := Execute(interp, capacity, b, ks); e.child.Waiting? && e.c.out == []
    ensures var b := Execute(interp, capacity, Boot(s, todo), before);
            var e := Execute(interp, capacity, b, ks);
            CommandStream(interp, b.child.s, Taken(OfChild, interp, capacity, b, ks) + more,
                          Acts(interp, capacity, b, ks))
            == Ended(e.child.s, Given(OfChild, interp, capacity, b, ks), e.c.got + more)
  {
    var b := Execute(interp, capacity, Boot(s, todo), before);
    TracksBoot(interp, s, todo);
    var m, n := TracksRun(interp, capacity, Boot(s, todo), before, Init(s, todo), Start(s, todo));
    hide Tracks, Execute, Executes, OneTurn, CommandStream;
    TrackedTurn(interp, capacity, b, m, KeptRun(interp, Start(s, todo), n), ks, more);
  }

  lemma TrackedTurn<S(!new)>(
    interp: Interp<S>, capacity: nat, b: State<S>, m: Sys<S>, d: Direct<S>, ks: seq<Step>, more: seq<byte>)
    requires Tracks(interp, b, m, d) && b.child.Waiting? && b.c.got == [] && b.c.out == []
    requires Executes(interp, capacity, b, ks) && OneTurn(interp, capacity, b, ks, true)
    requires Execute(interp, capacity, b, ks).child.Waiting? && Execute(interp, capacity, b, ks).c.out == []
    ensures var e := Execute(interp, capacity, b, ks);
            CommandStream(interp, b.child.s, Taken(OfChild, interp, capacity, b, ks) + more,
                          Acts(interp, capacity, b, ks))
            == Ended(e.child.s, Given(OfChild, interp, capacity, b, ks), e.c.got + more)
  {
    hide Tracks, TurnFrom, Take, Enabled, WrittenBefore, CommandStream, Execute, Executes, OneTurn, Taken, Given, Acts;
    RunKeepsTurn(interp, capacity, b, m, d, ks, true, more, 0);
    StartOfTurn(interp, b, Taken(OfChild, interp, capacity, b, ks) + more, Acts(interp, capacity, b, ks));
    EndOfTurn(interp, Execute(interp, capacity, b, ks), Given(OfChild, interp, capacity, b, ks), more);
  }

  lemma StartOfTurn<S>(interp: Interp<S>, b: State<S>, data: seq<byte>, fuel: nat)
    requires b.child.Waiting? && b.c.got == [] && b.c.out == []
    ensures TurnFrom(interp, b, true, data, fuel) == CommandStream(interp, b.child.s, data, fuel)
  {
    hide CommandStream;
    assert [] + data == data;
    NothingBefore(CommandStream(interp, b.child.s, data, fuel));
  }

  lemma EndOfTurn<S>(interp: Interp<S>, e: State<S>, given: seq<byte>, more: seq<byte>)
    requires e.child.Waiting? && e.c.out == []
    ensures WrittenBefore(given, TurnFrom(interp, e, false, more, 0)) == Ended(e.child.s, given, e.c.got + more)
  {
    var none: seq<byte> := [];
    assert none + none == none && given + none == given;
  }
}
