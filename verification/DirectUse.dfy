/** The proxy against the interpreter used directly. */
module DirectUse {
  import opened Base
  import opened Codec
  import opened Session
  import opened Frames
  import opened Messages
  import opened Pipes
  import opened Refinement
  import opened ProxyTheorems
  import opened Termination

  // ----- When keeping the first definition makes no difference -----

  /** The guard in define_function_proxy never finds a name that is already defined. */
  predicate NoRedefinition(reg: Registry, reqs: seq<Request>)
    decreases |reqs|
  {
    || reqs == []
    || ((reqs[0].DefineFunction? ==> reqs[0].name !in reg) && NoRedefinition(Define(reg, reqs[0]), reqs[1..]))
  }

  /** A name is only ever redefined as the function it already has. */
  ghost predicate Harmless(reg: Registry, reqs: seq<Request>)
    decreases |reqs|
  {
    || reqs == []
    || (&& (reqs[0].DefineFunction? && reqs[0].name in reg ==> reg[reqs[0].name] == reqs[0].fn)
        && Harmless(Define(reg, reqs[0]), reqs[1..]))
  }

  lemma {:induction false} NoRedefinitionIsHarmless(reg: Registry, reqs: seq<Request>)
    requires NoRedefinition(reg, reqs)
    ensures Harmless(reg, reqs)
    decreases |reqs|
  {
    if reqs != [] { NoRedefinitionIsHarmless(Define(reg, reqs[0]), reqs[1..]); }
  }

  ghost predicate AgreeThroughout(reg: Registry, reqs: seq<Request>) {
    forall i :: 0 <= i <= |reqs| ==> DefineAll(reg, reqs[..i]) == RedefineAll(reg, reqs[..i])
  }

  lemma PrefixStep(reg: Registry, reqs: seq<Request>, i: nat)
    requires 0 < i <= |reqs|
    ensures DefineAll(reg, reqs[..i]) == DefineAll(Define(reg, reqs[0]), reqs[1..][..i - 1])
    ensures RedefineAll(reg, reqs[..i]) == RedefineAll(Redefine(reg, reqs[0]), reqs[1..][..i - 1])
  {
    assert reqs[..i][1..] == reqs[1..][..i - 1];
  }

  /** First and last definitions are the same functions throughout exactly if every redefinition is harmless. */
  lemma {:induction false} RegistriesAgree(reg: Registry, reqs: seq<Request>)
    ensures AgreeThroughout(reg, reqs) <==> Harmless(reg, reqs)
    decreases |reqs|
  {
    if reqs != [] {
      hide DefineAll, RedefineAll;
      var kept, given, rest := Define(reg, reqs[0]), Redefine(reg, reqs[0]), reqs[1..];
      RegistriesAgree(kept, rest);
      forall i | 0 < i <= |reqs|
        ensures DefineAll(reg, reqs[..i]) == DefineAll(kept, rest[..i - 1])
        ensures RedefineAll(reg, reqs[..i]) == RedefineAll(given, rest[..i - 1])
      {
        PrefixStep(reg, reqs, i);
      }
      NothingDefined(kept, given, reg, reqs, rest);
      if AgreeThroughout(reg, reqs) {
        assert kept == given by { assert DefineAll(reg, reqs[..1]) == RedefineAll(reg, reqs[..1]); }
        forall j | 0 <= j <= |rest|
          ensures DefineAll(kept, rest[..j]) == RedefineAll(kept, rest[..j])
        {
          assert DefineAll(reg, reqs[..j + 1]) == RedefineAll(reg, reqs[..j + 1]);
        }
      }
      if Harmless(reg, reqs) {
        assert kept == given;
        forall i | 0 < i <= |reqs|
          ensures DefineAll(reg, reqs[..i]) == RedefineAll(reg, reqs[..i])
        {
          assert DefineAll(kept, rest[..i - 1]) == RedefineAll(kept, rest[..i - 1]);
        }
      }
    }
  }

  lemma NothingDefined(kept: Registry, given: Registry, reg: Registry, reqs: seq<Request>, rest: seq<Request>)
    ensures DefineAll(kept, rest[..0]) == kept && RedefineAll(given, rest[..0]) == given
    ensures DefineAll(reg, reqs[..0]) == reg && RedefineAll(reg, reqs[..0]) == reg
  {
  }

  // ----- The kept session is the direct one up to the first NULL -----

  /** The kept session `k` is at the same point as the direct session `d`; if it has ended with a NULL result, then `d`
      has just returned it and goes on. */
  ghost predicate Mirrors<S>(k: Direct<S>, d: Direct<S>) {
    if k.control == Stopped(GuestError) then
      && d.control.Ready? && d.results == k.results + [Null]
      && d.events == k.events && d.todo == k.todo && d.reg == k.reg
    else d == k
  }

  lemma StepMirrors<S>(interp: Interp<S>, d: Direct<S>)
    requires Harmless(d.reg, d.todo) && d.control != Stopped(GuestError)
    ensures Mirrors(KeptStep(interp, d), DirectStep(interp, d))
    ensures Harmless(KeptStep(interp, d).reg, KeptStep(interp, d).todo)
  {
    if d.control.Ready? && d.todo != [] { assert Define(d.reg, d.todo[0]) == Redefine(d.reg, d.todo[0]); }
  }

  lemma {:induction false} KeptMirrorsDirect<S>(interp: Interp<S>, d: Direct<S>, n: nat) returns (i: nat)
    requires Harmless(d.reg, d.todo) && d.control != Stopped(GuestError)
    ensures i <= n && Mirrors(KeptRun(interp, d, n), DirectRun(interp, d, i))
    ensures KeptRun(interp, d, n).control != Stopped(GuestError) ==> i == n
    decreases n
  {
    if n == 0 {
      i := 0;
    } else {
      StepMirrors(interp, d);
      var k := KeptStep(interp, d);
      if k.control == Stopped(GuestError) {
        HaltedStays(interp, k, n - 1);
        assert DirectRun(interp, d, 1) == DirectRun(interp, DirectStep(interp, d), 0);
        i := 1;
      } else {
        i := KeptMirrorsDirect(interp, k, n - 1);
        i := i + 1;
      }
    }
  }

  // ----- Refinement -----

  /** What the program has through the proxy is what it has in the direct session `d`: so far; completely whenever the
      parent is idle or a callback has failed; and when the guest has failed, completely with the NULL that both
      programs get for this call. */
  ghost predicate ReproducesDirect<S>(c: Caller, d: Direct<S>) {
    && c.results <= d.results && c.events <= d.events
    && (c.parent.Idle? ==> c.results == d.results && c.events == d.events && d.control.Ready?)
    && (c.parent == Failed(HostError) ==>
          c.results == d.results && c.events == d.events && d.control == Stopped(HostError))
    && (c.parent == Failed(GuestError) ==>
          c.results + [Null] == d.results && c.events == d.events && d.control.Ready?)
  }

  /** For every interpreter, every interleaving and every session that does not define a name as another function than
      the one it has: the results the program has received, the log lines and the callbacks it has run, with the values
      it returned for them, are those of the direct session, up to and including the first NULL. */
  lemma ProxyRefinesDirect<S(!new)>(interp: Interp<S>, capacity: nat, s: S, todo: seq<Request>, ks: seq<Step>)
    returns (i: nat)
    requires InterpOk(interp) && RequestsOk(todo) && Harmless(map[], todo)
    requires Executes(interp, capacity, Boot(s, todo), ks)
    ensures ReproducesDirect(Execute(interp, capacity, Boot(s, todo), ks).caller, DirectRun(interp, Start(s, todo), i))
  {
    var n := ProxyRefinesKept(interp, capacity, s, todo, ks);
    i := KeptMirrorsDirect(interp, Start(s, todo), n);
  }

  // ----- Termination -----

  ghost predicate DirectKeepsLimits<S>(interp: Interp<S>, d: Direct<S>) {
    forall j: nat :: ActsWithinLimits(interp, DirectRun(interp, d, j))
  }

  /** A direct session that halts and keeps the limits has a kept session that does. */
  lemma KeptHaltsToo<S>(interp: Interp<S>, d: Direct<S>, n: nat)
    requires Harmless(d.reg, d.todo) && d.control != Stopped(GuestError)
    requires Halted(DirectRun(interp, d, n)) && DirectKeepsLimits(interp, d)
    ensures HaltsWithin(interp, d, n) && KeepsLimits(interp, d)
  {
    hide KeptStep, DirectStep;
    var i := KeptMirrorsDirect(interp, d, n);
    forall j: nat
      ensures ActsWithinLimits(interp, KeptRun(interp, d, j))
    {
      var i' := KeptMirrorsDirect(interp, d, j);
      assert ActsWithinLimits(interp, DirectRun(interp, d, i'));
    }
  }

  /** A session that halts when the interpreter is used directly, keeps the limits and does not define a name as another
      function than the one it has, also ends through the proxy, after no more steps than its price. Every run that
      goes on until nothing is left to do reproduces the direct session: to its end, unless that has a NULL, and
      otherwise up to and including the first. */
  lemma ProxyEndsLikeDirect<S(!new)>(interp: Interp<S>, capacity: nat, s: S, todo: seq<Request>, ks: seq<Step>, n: nat)
    returns (i: nat)
    requires InterpOk(interp) && RequestsOk(todo) && Harmless(map[], todo) && capacity >= 1
    requires Halted(DirectRun(interp, Start(s, todo), n)) && DirectKeepsLimits(interp, Start(s, todo))
    requires Executes(interp, capacity, Boot(s, todo), ks) && PTimeout !in ks
    ensures i <= n && |ks| <= Future(interp, Start(s, todo), n)
    ensures var e, d := Execute(interp, capacity, Boot(s, todo), ks), DirectRun(interp, Start(s, todo), i);
      Stuck(interp, capacity, e) ==>
        && ReproducesDirect(e.caller, d)
        && (Finished(e) || e.caller.parent == Failed(GuestError) || e.caller.parent == Failed(HostError))
        && (e.caller.parent != Failed(GuestError) ==> i == n)
        && (Finished(e) ==> |ks| == Future(interp, Start(s, todo), n))
  {
    var start := Start(s, todo);
    KeptHaltsToo(interp, start, n);
    ProxyTerminates(interp, capacity, s, todo, ks, n);
    i := KeptMirrorsDirect(interp, start, n);
    KeptStops(interp, start, n);
    hide InterpOk, RequestsOk, Harmless, DirectKeepsLimits, KeepsLimits, Executes, Execute, Stuck, Future, KeptRun,
         DirectRun;
    EndMirrored(Execute(interp, capacity, Boot(s, todo), ks), KeptRun(interp, start, n), DirectRun(interp, start, i));
  }

  predicate StoppedByGuestOrHost<S>(d: Direct<S>) {
    d.control.Stopped? ==> d.control.why == GuestError || d.control.why == HostError
  }

  lemma {:induction false} KeptStops<S>(interp: Interp<S>, d: Direct<S>, n: nat)
    requires StoppedByGuestOrHost(d)
    ensures StoppedByGuestOrHost(KeptRun(interp, d, n))
    decreases n
  {
    if n > 0 { KeptStops(interp, KeptStep(interp, d), n - 1); }
  }

  predicate EndsLike<S>(e: State<S>, k: Direct<S>) {
    && e.caller.results == k.results && e.caller.events == k.events
    && if k.control.Ready? then Finished(e) else k.control.Stopped? && e.caller.parent == Failed(k.control.why)
  }

  lemma EndMirrored<S>(e: State<S>, k: Direct<S>, d: Direct<S>)
    requires Halted(k) && StoppedByGuestOrHost(k) && Mirrors(k, d)
    ensures EndsLike(e, k) ==>
              && ReproducesDirect(e.caller, d)
              && (Finished(e) || e.caller.parent == Failed(GuestError) || e.caller.parent == Failed(HostError))
              && (e.caller.parent != Failed(GuestError) ==> k.control != Stopped(GuestError))
              && (Finished(e) ==> k.control.Ready?)
  {
  }

  // ----- A session with a redefinition -----

  const NAME: CString := [102]

  /** The state of a guest: nothing, or the integer that a callback has returned. */
  type Held = Option<int32>

  /** It returns the integer that the callback of that name returns. */
  function RelayAct(s: Held): Action<Held> {
    match s
    case None => Callback(NAME, Void, ToHeld)
    case Some(i) => Done(Some(Int32(i)), None)
  }

  function ToHeld(v: Value): Held {
    Some(if v.Int32? then v.i else 0)
  }

  const RELAY: Interp<Held> :=
    Interp((s: Held, name: CString, value: Value) => s, (s: Held, name: CString, n: byte) => s,
           (s: Held, name: CString) => true, (s: Held, script: CString) => None,
           (s: Held, name: CString, args: Value) => None, RelayAct)

  function Returning(i: int32): HostFn {
    (events: seq<Event>, args: Value) => Some(Int32(i))
  }

  /** The name is defined twice, and then the guest is called. */
  const TWICE: seq<Request> :=
    [DefineFunction(NAME, 0, Returning(1)), DefineFunction(NAME, 0, Returning(2)), CallFunction(NAME, Void)]

  /** Used directly, the guest returns what the second function returns; through the proxy every run returns what the
      first one returns. */
  lemma RedefinitionDiverges(capacity: nat, ks: seq<Step>)
    requires capacity >= 1 && Executes(RELAY, capacity, Boot(None, TWICE), ks) && PTimeout !in ks
    requires Stuck(RELAY, capacity, Execute(RELAY, capacity, Boot(None, TWICE), ks))
    ensures InterpOk(RELAY) && RequestsOk(TWICE) && !Harmless(map[], TWICE)
    ensures var d := DirectRun(RELAY, Start(None, TWICE), 5); Halted(d) && d.results == [Val(Int32(2))]
    ensures Execute(RELAY, capacity, Boot(None, TWICE), ks).caller.results == [Val(Int32(1))]
  {
    TwiceRuns();
    TwiceOk();
    ProxyTerminates(RELAY, capacity, None, TWICE, ks, 5);
  }

  lemma TwiceRuns()
    ensures var k, d := KeptRun(RELAY, Start(None, TWICE), 5), DirectRun(RELAY, Start(None, TWICE), 5);
      && k.control == d.control == Ready(None) && k.todo == d.todo == []
      && k.results == [Val(Int32(1))] && d.results == [Val(Int32(2))]
  {
    var one, two := Returning(1), Returning(2);
    assert TWICE[1..] == [TWICE[1], TWICE[2]] && TWICE[1..][1..] == [TWICE[2]] && TWICE[1..][1..][1..] == [];
    var k3 := Direct(Busy(None, Calling), [], [], [], map[NAME := one]);
    var d3 := k3.(reg := map[NAME := two]);
    var k2 := KeptStep(RELAY, KeptStep(RELAY, Start(None, TWICE)));
    var d2 := DirectStep(RELAY, DirectStep(RELAY, Start(None, TWICE)));
    assert k2 == Direct(Ready(None), [TWICE[2]], [], [], map[NAME := one]);
    assert d2 == Direct(Ready(None), [TWICE[2]], [], [], map[NAME := two]);
    assert KeptStep(RELAY, k2) == k3 && DirectStep(RELAY, d2) == d3;
    Relayed(k3, 1);
    Relayed(d3, 2);
    ThreeAndTwo(Start(None, TWICE));
  }

  lemma Relayed(d: Direct<Held>, i: int32)
    requires d == Direct(Busy(None, Calling), [], [], [], map[NAME := Returning(i)])
    ensures var e := KeptStep(RELAY, KeptStep(RELAY, d));
            e.control == Ready(None) && e.todo == [] && e.results == [Val(Int32(i))]
    ensures DirectStep(RELAY, DirectStep(RELAY, d)) == KeptStep(RELAY, KeptStep(RELAY, d))
  {
  }

  lemma ThreeAndTwo(d: Direct<Held>)
    ensures var k3 := KeptStep(RELAY, KeptStep(RELAY, KeptStep(RELAY, d)));
            KeptRun(RELAY, d, 5) == KeptStep(RELAY, KeptStep(RELAY, k3))
    ensures var d3 := DirectStep(RELAY, DirectStep(RELAY, DirectStep(RELAY, d)));
            DirectRun(RELAY, d, 5) == DirectStep(RELAY, DirectStep(RELAY, d3))
  {
    hide KeptStep, DirectStep;
  }

  lemma TwiceOk()
    ensures InterpOk(RELAY) && RequestsOk(TWICE) && !Harmless(map[], TWICE)
    ensures KeepsLimits(RELAY, Start(None, TWICE))
  {
    assert RequestsOk(TWICE) by {
      hide Returning;
      ReturningOk(1);
      ReturningOk(2);
    }
    forall j: nat
      ensures ActsWithinLimits(RELAY, KeptRun(RELAY, Start(None, TWICE), j))
    {
      hide RELAY, TWICE;
      RelayWithinLimits(KeptRun(RELAY, Start(None, TWICE), j));
    }
    assert !Harmless(map[], TWICE) by {
      assert Returning(1)([], Void) != Returning(2)([], Void);
      assert TWICE[1..][0] == TWICE[1];
    }
  }

  lemma ReturningOk(i: int32)
    ensures FnOk(Returning(i))
  {
  }

  lemma RelayWithinLimits(d: Direct<Held>)
    ensures ActsWithinLimits(RELAY, d)
  {
  }
}
