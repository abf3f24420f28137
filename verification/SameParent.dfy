/** The parent that takes steps in Pipes and the loop in process_callbacks are the same program: fed with the bytes
    that the parent of any run has read, the loop has the same effect. */
module SameParent {
  import opened Base
  import opened Codec
  import opened Session
  import opened Frames
  import opened Messages
  import opened Pipes
  import opened Refinement
  import opened ProxyTheorems
  import opened ParentSide

  /** The parent is in process_callbacks all along. */
  predicate StaysServing<S>(interp: Interp<S>, capacity: nat, b: State<S>, ks: seq<Step>)
    requires Executes(interp, capacity, b, ks)
    decreases |ks|
  {
    b.caller.parent.Serving? && (ks == [] || StaysServing(interp, capacity, Take(interp, capacity, b, ks[0]), ks[1..]))
  }

  function Preceded(written: seq<byte>, s: Served): Served {
    s.(written := written + s.written)
  }

  /** What the loop will do from the parent's position in the run, if `more` follows. Replies it is still writing come
      first. */
  function LoopFrom<S>(b: State<S>, more: seq<byte>): Served {
    Preceded(b.p.out, ServeStream(b.caller.reg, b.p.got + more, b.caller.events))
  }

  /** Acting on a complete frame is one turn of the loop. */
  lemma ActIsTurn<S>(b: State<S>, more: seq<byte>)
    requires b.caller.parent.Serving? && PortOk(b.p) && !b.p.writing
    requires !ParseFrame(b.p.got).MoreUnit? && ParentAct(b).caller.parent.Serving?
    requires ParseFrame(b.p.got).GotUnit? ==> ParseFrame(b.p.got).n == |b.p.got|
    ensures LoopFrom(ParentAct(b), more) == LoopFrom(b, more)
  {
    hide ParseFrame;
    FrameExtends(b.p.got, more);
    var e := NextFrame(b.caller.reg, b.p.got + more, b.caller.events);
    if ParseFrame(b.p.got).Junk? {
      assert (b.p.got + more)[1..] == b.p.got[1..] + more;
      assert [] + ([] + ServeStream(b.caller.reg, (b.p.got + more)[1..], b.caller.events).written)
          == [] + ServeStream(b.caller.reg, (b.p.got + more)[1..], b.caller.events).written;
    } else {
      assert (b.p.got + more)[|b.p.got|..] == more;
      assert [] + more == more;
      var s := ServeStream(b.caller.reg, more, e.events);
      assert [] + (e.written + s.written) == e.written + s.written;
    }
  }

  lemma FrameExtends(s: seq<byte>, t: seq<byte>)
    requires !ParseFrame(s).MoreUnit?
    ensures ParseFrame(s + t) == ParseFrame(s) && s != []
  {
    hide ParseNamed, DecodeString;
    UnitExtends(ErrorU, s, t);
  }

  /** No step changes what the loop does with the bytes that are yet to be read. */
  lemma StepKeepsLoop<S>(interp: Interp<S>, capacity: nat, b: State<S>, k: Step, more: seq<byte>)
    requires InSync(interp, b) && PortOk(b.p) && b.caller.parent.Serving?
    requires Enabled(interp, capacity, b, k) && Take(interp, capacity, b, k).caller.parent.Serving?
    ensures LoopFrom(b, Read1(OfParent, b, k) + more)
         == Preceded(Written1(OfParent, b, k), LoopFrom(Take(interp, capacity, b, k), more))
  {
    hide ParseFrame, ParseVal, ParseFlag, ParseCommand, Decode, LoopFrom, ParentAct, ChildAct, ChildCanAct,
         CommandBytes, UnitBytes, Issued;
    var b' := Take(interp, capacity, b, k);
    NothingPreceded(LoopFrom(b', more));
    assert [] + more == more;
    match k
    case PAct => ActIsTurn(b, more);
    case PRead => ReadKeepsLoop(b, more);
    case PWrite => WriteKeepsLoop(b, more);
    case CAct => ChildKeepsParent(interp, b); SameLoop(b, b', more);
    case _ => SameLoop(b, b', more);
  }

  lemma ReadKeepsLoop<S>(b: State<S>, more: seq<byte>)
    requires b.up != []
    ensures LoopFrom(b, [b.up[0]] + more) == LoopFrom(b.(p := b.p.(got := b.p.got + [b.up[0]]), up := b.up[1..]), more)
  {
    hide ServeStream;
    assert b.p.got + ([b.up[0]] + more) == (b.p.got + [b.up[0]]) + more;
  }

  lemma WriteKeepsLoop<S>(b: State<S>, more: seq<byte>)
    requires b.p.out != []
    ensures LoopFrom(b, more)
         == Preceded([b.p.out[0]], LoopFrom(b.(down := b.down + [b.p.out[0]], p := b.p.(out := b.p.out[1..])), more))
  {
    hide ServeStream;
    var s := ServeStream(b.caller.reg, b.p.got + more, b.caller.events);
    assert b.p.out + s.written == [b.p.out[0]] + (b.p.out[1..] + s.written);
  }

  lemma SameLoop<S>(b: State<S>, b': State<S>, more: seq<byte>)
    requires b.caller == b'.caller && b.p.got == b'.p.got && b.p.out == b'.p.out
    ensures LoopFrom(b, more) == LoopFrom(b', more)
  {
  }

  lemma NothingPreceded(s: Served)
    ensures Preceded([], s) == s
  {
    assert [] + s.written == s.written;
  }

  lemma ChildKeepsParent<S>(interp: Interp<S>, b: State<S>)
    requires ChildCanAct(interp, b.child, b.c.got)
    ensures ChildAct(interp, b).caller == b.caller && ChildAct(interp, b).p == b.p
  {
  }

  lemma {:induction false} RunKeepsLoop<S(!new)>(
    interp: Interp<S>, capacity: nat, b: State<S>, m: Sys<S>, d: Direct<S>, ks: seq<Step>, more: seq<byte>)
    requires Tracks(interp, b, m, d) && Executes(interp, capacity, b, ks) && StaysServing(interp, capacity, b, ks)
    ensures LoopFrom(b, Taken(OfParent, interp, capacity, b, ks) + more)
         == Preceded(Given(OfParent, interp, capacity, b, ks), LoopFrom(Execute(interp, capacity, b, ks), more))
    decreases |ks|
  {
    hide *;
    RunStart(interp, capacity, b, ks);
    if ks == [] {
      assert [] + more == more;
      NothingPreceded(LoopFrom(b, more));
    } else {
      var k, rest := ks[0], ks[1..];
      var b', m', d' := Take(interp, capacity, b, k), MessageStep(interp, m, k), SessionStep(interp, m, d, k);
      var taken, given := Taken(OfParent, interp, capacity, b', rest), Given(OfParent, interp, capacity, b', rest);
      TracksOn(interp, capacity, b, m, d, k);
      RunKeepsLoop(interp, capacity, b', m', d', rest, more);
      StepKeepsLoop(interp, capacity, b, k, taken + more);
      Assoc(Read1(OfParent, b, k), taken, more);
      PrecededTwice(Written1(OfParent, b, k), given, LoopFrom(Execute(interp, capacity, b', rest), more));
    }
  }

  /** A run, taken apart. */
  lemma RunStart<S>(interp: Interp<S>, capacity: nat, b: State<S>, ks: seq<Step>)
    requires Executes(interp, capacity, b, ks) && StaysServing(interp, capacity, b, ks)
    ensures ks == [] ==>
              && Taken(OfParent, interp, capacity, b, ks) == [] && Given(OfParent, interp, capacity, b, ks) == []
              && Execute(interp, capacity, b, ks) == b
    ensures b.caller.parent.Serving?
    ensures ks != [] ==>
              var k, rest := ks[0], ks[1..];
              && Enabled(interp, capacity, b, k)
              && var b' := Take(interp, capacity, b, k);
              && b'.caller.parent.Serving?
              && Executes(interp, capacity, b', rest) && StaysServing(interp, capacity, b', rest)
              && Taken(OfParent, interp, capacity, b, ks)
                 == Read1(OfParent, b, k) + Taken(OfParent, interp, capacity, b', rest)
              && Given(OfParent, interp, capacity, b, ks)
                 == Written1(OfParent, b, k) + Given(OfParent, interp, capacity, b', rest)
              && Execute(interp, capacity, b, ks) == Execute(interp, capacity, b', rest)
  {
    hide Take, Enabled;
  }

  lemma PrecededTwice(a: seq<byte>, b: seq<byte>, s: Served)
    ensures Preceded(a, Preceded(b, s)) == Preceded(a + b, s)
  {
    Assoc(a, b, s.written);
  }

  /** After the run the parent is about to act, and thereby to leave process_callbacks. */
  predicate Leaves<S>(interp: Interp<S>, capacity: nat, b: State<S>, ks: seq<Step>)
    requires Executes(interp, capacity, b, ks)
  {
    var e := Execute(interp, capacity, b, ks);
    Enabled(interp, capacity, e, PAct) && !ParentAct(e).caller.parent.Serving?
  }

  /** For every session and every interleaving: from the writing of a command until the parent leaves
      process_callbacks, by RESP_RETURN or because of a failure other than a time-out, the parent has written the
      command and then exactly what process_callbacks writes when it is fed with the bytes the parent has read. It has
      seen to the same log lines and callbacks and leaves it in the same way, and after RESP_RETURN no byte of the
      result has been read. */
  lemma CallIsLoop<S(!new)>(
    interp: Interp<S>, capacity: nat, s: S, todo: seq<Request>, before: seq<Step>, ks: seq<Step>, more: seq<byte>)
    requires InterpOk(interp) && RequestsOk(todo) && Executes(interp, capacity, Boot(s, todo), before)
    requires Enabled(interp, capacity, Execute(interp, capacity, Boot(s, todo), before), PIssue)
    requires var b := Take(interp, capacity, Execute(interp, capacity, Boot(s, todo), before), PIssue);
             && Executes(interp, capacity, b, ks)
             && StaysServing(interp, capacity, b, ks) && Leaves(interp, capacity, b, ks)
    ensures var start := Execute(interp, capacity, Boot(s, todo), before);
            var b := Take(interp, capacity, start, PIssue);
            var loop := ServeStream(b.caller.reg, Taken(OfParent, interp, capacity, b, ks) + more, b.caller.events);
            var c := ParentAct(Execute(interp, capacity, b, ks)).caller;
            && (loop.ok ==> c.parent.Resulting? && loop.rest == more)
            && (!loop.ok ==> c.parent.Failed?)
            && c.events == loop.events
            && Given(OfParent, interp, capacity, b, ks) == CommandBytes(ToCommand(start.caller.todo[0])) + loop.written
  {
    var start := Execute(interp, capacity, Boot(s, todo), before);
    TracksBoot(interp, s, todo);
    var m, n := TracksRun(interp, capacity, Boot(s, todo), before, Init(s, todo), Start(s, todo));
    var d := KeptRun(interp, Start(s, todo), n);
    IssueWrites(interp, capacity, start);
    hide *;
    TracksOn(interp, capacity, start, m, d, PIssue);
    var b := Take(interp, capacity, start, PIssue);
    var m', d' := MessageStep(interp, m, PIssue), SessionStep(interp, m, d, PIssue);
    RunKeepsLoop(interp, capacity, b, m', d', ks, more);
    EndOfLoop(interp, capacity, b, m', d', ks, more);
    StartOfLoop(b, Taken(OfParent, interp, capacity, b, ks) + more);
    LoopJoined(b.p.out, ServeStream(b.caller.reg, Taken(OfParent, interp, capacity, b, ks) + more, b.caller.events),
               Given(OfParent, interp, capacity, b, ks), LoopFrom(Execute(interp, capacity, b, ks), more));
  }

  lemma IssueWrites<S>(interp: Interp<S>, capacity: nat, b: State<S>)
    requires Enabled(interp, capacity, b, PIssue)
    ensures b.caller.todo != []
    ensures Take(interp, capacity, b, PIssue).p == Port([], CommandBytes(ToCommand(b.caller.todo[0])), true)
  {
    hide CommandBytes, Issued;
  }

  lemma StartOfLoop<S>(b: State<S>, data: seq<byte>)
    requires b.p.got == []
    ensures LoopFrom(b, data) == Preceded(b.p.out, ServeStream(b.caller.reg, data, b.caller.events))
  {
    hide ServeStream;
    assert [] + data == data;
  }

  lemma LoopJoined(out: seq<byte>, loop: Served, given: seq<byte>, end: Served)
    requires Preceded(out, loop) == Preceded(given, end) && end.written == []
    ensures given == out + loop.written && loop == end.(written := loop.written)
  {
    assert given + [] == given;
  }

  /** The loop, too, ends with the frame at which the parent leaves process_callbacks. */
  lemma EndOfLoop<S(!new)>(
    interp: Interp<S>, capacity: nat, b: State<S>, m: Sys<S>, d: Direct<S>, ks: seq<Step>, more: seq<byte>)
    requires Tracks(interp, b, m, d) && Executes(interp, capacity, b, ks) && StaysServing(interp, capacity, b, ks)
    requires Leaves(interp, capacity, b, ks)
    ensures var c := ParentAct(Execute(interp, capacity, b, ks)).caller;
            var loop := LoopFrom(Execute(interp, capacity, b, ks), more);
            && (loop.ok ==> c.parent.Resulting? && loop.rest == more) && (!loop.ok ==> c.parent.Failed?)
            && loop.written == [] && loop.events == c.events
  {
    var e := Execute(interp, capacity, b, ks);
    StaysServingAtEnd(interp, capacity, b, ks);
    var m', n := TracksRun(interp, capacity, b, ks, m, d);
    hide Tracks, Enabled, Execute, Executes, StaysServing, LoopFrom, ParentAct;
    TracksOn(interp, capacity, e, m', KeptRun(interp, d, n), PAct);
    ActLeaves(interp, capacity, e, more);
  }

  lemma ActLeaves<S>(interp: Interp<S>, capacity: nat, e: State<S>, more: seq<byte>)
    requires InSync(interp, e) && PortOk(e.p) && e.caller.parent.Serving?
    requires Enabled(interp, capacity, e, PAct) && !ParentAct(e).caller.parent.Serving?
    ensures var c, loop := ParentAct(e).caller, LoopFrom(e, more);
            && (loop.ok ==> c.parent.Resulting? && loop.rest == more) && (!loop.ok ==> c.parent.Failed?)
            && loop.written == [] && loop.events == c.events
  {
    hide ParseFrame, ParseVal, ParseFlag, ParseCommand, Decode;
    FrameExtends(e.p.got, more);
    assert (e.p.got + more)[|e.p.got|..] == more;
    NothingPreceded(ServeStream(e.caller.reg, e.p.got + more, e.caller.events));
  }

  lemma {:induction false} StaysServingAtEnd<S>(interp: Interp<S>, capacity: nat, b: State<S>, ks: seq<Step>)
    requires Executes(interp, capacity, b, ks) && StaysServing(interp, capacity, b, ks)
    ensures Execute(interp, capacity, b, ks).caller.parent.Serving?
    decreases |ks|
  {
    hide Take, Enabled;
    if ks != [] { StaysServingAtEnd(interp, capacity, Take(interp, capacity, b, ks[0]), ks[1..]); }
  }
}
