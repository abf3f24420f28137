/** What a program gets through the proxy, in terms of its requests and of the interpreter alone. */
module ProxySessions {
  import opened Session
  import opened SessionLaws
  import opened Messages
  import opened Pipes
  import opened Refinement
  import opened ProxyTheorems
  import opened Termination

  /** Every callback that the parent has made in a run went to the first function that the session gives the name, with
      the arguments recorded and the events before it, and returned the value recorded. */
  lemma ProxyCallsFirst<S(!new)>(interp: Interp<S>, capacity: nat, s: S, todo: seq<Request>, ks: seq<Pipes.Step>)
    requires InterpOk(interp) && RequestsOk(todo) && Executes(interp, capacity, Boot(s, todo), ks)
    ensures AnsweredByFirst(todo, Execute(interp, capacity, Boot(s, todo), ks).caller.events)
  {
    hide FirstDef;
    var n := ProxyRefinesKept(interp, capacity, s, todo, ks);
    KeptCallbacksAreAnswered(interp, s, todo, n);
    var some := Execute(interp, capacity, Boot(s, todo), ks).caller.events;
    var all := KeptRun(interp, Start(s, todo), n).events;
    hide KeptRun, Execute, Executes, RequestsOk, InterpOk;
    assert some <= all;
    assert AnsweredByFirst(todo, some) by { Earlier(todo, some, all); }
  }

  lemma Earlier(todo: seq<Request>, some: seq<Event>, all: seq<Event>)
    requires some <= all && AnsweredByFirst(todo, all)
    ensures AnsweredByFirst(todo, some)
  {
    hide FirstDef;
    forall i | 0 <= i < |some|
      ensures some[i] == all[i] && some[..i] == all[..i]
    {
    }
  }

  /** In every run the program has had a part of what is played up to some point of the session, and all of it whenever
      the parent is idle or a callback or the guest has failed. */
  lemma ProxyIsPlayed<S(!new)>(interp: Interp<S>, capacity: nat, s: S, todo: seq<Request>, ks: seq<Pipes.Step>)
    returns (d: Direct<S>, h: seq<Play<S>>, trace: seq<Event>, t: S)
    requires InterpOk(interp) && RequestsOk(todo) && Executes(interp, capacity, Boot(s, todo), ks)
    ensures IsAt(true, interp, s, todo, d, h, trace, t)
    ensures Reproduces(Execute(interp, capacity, Boot(s, todo), ks).caller, d)
  {
    var n := ProxyRefinesKept(interp, capacity, s, todo, ks);
    d := KeptRun(interp, Start(s, todo), n);
    h, trace, t := SessionIsPlayed(true, interp, s, todo, n);
  }

  /** A run that finishes has played the whole session. */
  lemma FinishedIsPlayed<S(!new)>(interp: Interp<S>, capacity: nat, s: S, todo: seq<Request>, ks: seq<Pipes.Step>)
    returns (h: seq<Play<S>>)
    requires InterpOk(interp) && RequestsOk(todo) && Executes(interp, capacity, Boot(s, todo), ks)
    requires Finished(Execute(interp, capacity, Boot(s, todo), ks))
    ensures Plays(true, interp, s, todo, h) && |h| == |todo|
    ensures var c := Execute(interp, capacity, Boot(s, todo), ks).caller;
            c.results == Replies(h) && c.events == SessionLaws.Events(h)
  {
    TracksBoot(interp, s, todo);
    var b := Execute(interp, capacity, Boot(s, todo), ks);
    var m, n := TracksRun(interp, capacity, Boot(s, todo), ks, Init(s, todo), Start(s, todo));
    var d := KeptRun(interp, Start(s, todo), n);
    TrackedReproduces(interp, b, m, d);
    NothingUnderway(b, m);
    AllQuiet(interp, m, d);
    var trace, t;
    h, trace, t := SessionIsPlayed(true, interp, s, todo, n);
    hide Plays, Rep, Sim, KeptRun, Execute, Executes;
  }
}
