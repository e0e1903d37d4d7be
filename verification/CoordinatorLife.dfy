/** The life of a coordinator, from its creation over any registrations to its
    shutdown: the object does what a run of the step machine does. */
module CoordinatorLife {
  import opened Common
  import opened Shutdown
  import opened Coordination
  import opened ShutdownRun

  /** A registration call; its resource may be nil. */
  type Registration = (Kind, Option<int>)

  ghost function NamedBy(reg: Registration, k: Kind): seq<int> {
    if reg.0 == k && reg.1.Some? then [reg.1.value] else []
  }

  /** The resources other than nil given for a kind, in order. */
  ghost function Named(regs: seq<Registration>, k: Kind): seq<int> {
    if regs == [] then [] else Named(regs[..|regs| - 1], k) + NamedBy(regs[|regs| - 1], k)
  }

  lemma NamedNext(regs: seq<Registration>, n: nat, k: Kind)
    requires n < |regs|
    ensures Named(regs[..n + 1], k) == Named(regs[..n], k) + NamedBy(regs[n], k)
  {
    assert regs[..n + 1][..n] == regs[..n];
  }

  /** What the object holds of a kind. */
  function Held(coordinator: Coordinator, k: Kind): seq<int>
    reads coordinator
  {
    match k
    case Server => coordinator.servers
    case Listener => coordinator.listeners
    case Client => coordinator.clients
    case Cleanup => coordinator.cleanupFuncs
  }

  method RegisterNext(coordinator: Coordinator, reg: Registration)
    modifies coordinator`servers, coordinator`listeners, coordinator`clients, coordinator`cleanupFuncs
    ensures forall k: Kind :: Held(coordinator, k) ==
              old(Held(coordinator, k)) + if coordinator.isShuttingDown then [] else NamedBy(reg, k)
  {
    match reg.0
    case Server => coordinator.RegisterServer(reg.1);
    case Listener => coordinator.RegisterListener(reg.1);
    case Client => coordinator.RegisterClient(reg.1);
    case Cleanup => coordinator.RegisterCleanupFunc(reg.1);
  }

  /** What registrations do to the object: before a shutdown each list grows by what
      was named for it, in order; after one nothing changes. */
  method RegisterAll(coordinator: Coordinator, regs: seq<Registration>)
    modifies coordinator`servers, coordinator`listeners, coordinator`clients, coordinator`cleanupFuncs
    ensures forall k: Kind :: Held(coordinator, k) ==
              old(Held(coordinator, k)) + if coordinator.isShuttingDown then [] else Named(regs, k)
  {
    for n := 0 to |regs|
      invariant forall k: Kind :: Held(coordinator, k) ==
                  old(Held(coordinator, k)) + if coordinator.isShuttingDown then [] else Named(regs[..n], k)
    {
      forall k: Kind ensures Named(regs[..n + 1], k) == Named(regs[..n], k) + NamedBy(regs[n], k) {
        NamedNext(regs, n, k);
      }
      RegisterNext(coordinator, regs[n]);
    }
    assert regs[..|regs|] == regs;
  }

  // ---- The same on the step machine ------------------------------------------------

  ghost function Steps(regs: seq<Registration>): seq<Step> {
    seq(|regs|, i requires 0 <= i < |regs| => Register(regs[i].0, regs[i].1))
  }

  ghost function Fresh(resources: seq<int>): seq<Entry> {
    seq(|resources|, i requires 0 <= i < |resources| => Entry(resources[i], Pending))
  }

  ghost function Listed(regs: seq<Registration>): Lists {
    Lists(Fresh(Named(regs, Server)), Fresh(Named(regs, Listener)), Fresh(Named(regs, Client)),
          Fresh(Named(regs, Cleanup)))
  }

  lemma ListedAt(regs: seq<Registration>, k: Kind)
    ensures Listed(regs).At(k) == Fresh(Named(regs, k))
  {
  }

  lemma {:induction false} RegisterOne(regs: seq<Registration>, reg: Registration)
    ensures Do(INIT.(lists := Listed(regs)), Register(reg.0, reg.1)) == INIT.(lists := Listed(regs + [reg]))
  {
    assert (regs + [reg])[..|regs|] == regs && (regs + [reg])[..|regs| + 1] == regs + [reg];
    forall k: Kind ensures Named(regs + [reg], k) == Named(regs, k) + NamedBy(reg, k) {
      NamedNext(regs + [reg], |regs|, k);
    }
    if reg.1.Some? {
      assert Fresh(Named(regs, reg.0) + [reg.1.value]) == Fresh(Named(regs, reg.0)) + [Entry(reg.1.value, Pending)];
    }
  }

  lemma OneMoreStep(s: System, run: seq<Step>, step: Step)
    requires Invariant(s) && ValidRun(s, run) && Enabled(After(s, run), step)
    ensures ValidRun(s, run + [step]) && After(s, run + [step]) == Do(After(s, run), step)
  {
    StepKeepsInvariant(After(s, run), step);
    assert [step][1..] == [];
    RunsCompose(s, run, [step]);
  }

  lemma StepsNext(front: seq<Registration>, last: Registration)
    ensures Steps(front + [last]) == Steps(front) + [Register(last.0, last.1)]
  {
  }

  lemma RunsToLists(front: seq<Registration>, last: Registration)
    requires ValidRun(INIT, Steps(front)) && After(INIT, Steps(front)) == INIT.(lists := Listed(front))
    ensures ValidRun(INIT, Steps(front + [last]))
    ensures After(INIT, Steps(front + [last])) == INIT.(lists := Listed(front + [last]))
  {
    OneMoreStep(INIT, Steps(front), Register(last.0, last.1));
    RegisterOne(front, last);
    StepsNext(front, last);
  }

  lemma {:induction false} RegisterRun(regs: seq<Registration>)
    ensures ValidRun(INIT, Steps(regs)) && After(INIT, Steps(regs)) == INIT.(lists := Listed(regs))
  {
    if regs == [] {
      assert Steps(regs) == [];
    } else {
      var front, last := regs[..|regs| - 1], regs[|regs| - 1];
      assert front + [last] == regs;
      RegisterRun(front);
      RunsToLists(front, last);
    }
  }

  /** Registrations and then one scripted Shutdown: a run of the step machine whose
      lists are what was named, and that closes, reports and returns as the object. */
  lemma LifeIsARun(regs: seq<Registration>, c: nat, script: Script) returns (run: seq<Step>)
    requires Coherent(script, Listed(regs))
    ensures ValidRun(INIT, Steps(regs) + run)
    ensures var t := After(INIT, Steps(regs) + run); var report := FullReport(|Named(regs, Cleanup)|, script);
      && (forall k: Kind :: Resources(t.lists.At(k)) == Named(regs, k))
      && t.phase == Over && t.errors == report && t.calls == FullCalls(Listed(regs))
      && c in t.returned && t.returned[c] == FirstOf(report)
  {
    RegisterRun(regs);
    var s := After(INIT, Steps(regs));
    run := ShutdownIsARun(s, c, script);
    RunsCompose(INIT, Steps(regs), run);
    forall k: Kind ensures Resources(After(s, run).lists.At(k)) == Named(regs, k) {
      ListedAt(regs, k);
      assert Resources(Fresh(Named(regs, k))) == Named(regs, k);
    }
  }

  /** What Shutdown needs to know of the lists: their lengths. */
  lemma CoherentNamed(regs: seq<Registration>, script: Script)
    requires Coherent(script, Listed(regs))
    ensures PlausibleShutdown(script, |Named(regs, Server)|, |Named(regs, Listener)|, |Named(regs, Client)|,
                              |Named(regs, Cleanup)|)
    ensures FullCalls(Listed(regs)) ==
            [] + Upto(Server, |Named(regs, Server)|) + Upto(Listener, |Named(regs, Listener)|)
            + Upto(Client, |Named(regs, Client)|) + Upto(Cleanup, |Named(regs, Cleanup)|)
  {
    assert [] + Upto(Server, |Named(regs, Server)|) == Upto(Server, |Named(regs, Server)|);
  }

  method NewlyRegistered(regs: seq<Registration>) returns (coordinator: Coordinator)
    ensures fresh(coordinator) && coordinator.calls == [] && !coordinator.onceDone && !coordinator.isShuttingDown
    ensures forall k: Kind :: Held(coordinator, k) == Named(regs, k)
  {
    coordinator := new Coordinator();
    RegisterAll(coordinator, regs);
  }

  method ShutDown(coordinator: Coordinator, regs: seq<Registration>, script: Script) returns (finalErr: Option<Failure>)
    requires coordinator.calls == [] && !coordinator.onceDone
    requires forall k: Kind :: Held(coordinator, k) == Named(regs, k)
    requires PlausibleShutdown(script, |Named(regs, Server)|, |Named(regs, Listener)|, |Named(regs, Client)|,
                               |Named(regs, Cleanup)|)
    modifies coordinator`isShuttingDown, coordinator`onceDone, coordinator`calls
    ensures forall k: Kind :: Held(coordinator, k) == Named(regs, k)
    ensures coordinator.calls ==
            [] + Upto(Server, |Named(regs, Server)|) + Upto(Listener, |Named(regs, Listener)|)
            + Upto(Client, |Named(regs, Client)|) + Upto(Cleanup, |Named(regs, Cleanup)|)
    ensures finalErr == FirstOf(FullReport(|Named(regs, Cleanup)|, script))
  {
    assert Held(coordinator, Server) == Named(regs, Server) && Held(coordinator, Listener) == Named(regs, Listener);
    assert Held(coordinator, Client) == Named(regs, Client) && Held(coordinator, Cleanup) == Named(regs, Cleanup);
    finalErr := coordinator.Shutdown(script);
  }

  /** The same, of the object itself. */
  method RegisterAndShutdown(regs: seq<Registration>, script: Script)
    returns (coordinator: Coordinator, finalErr: Option<Failure>, ghost run: seq<Step>)
    requires Coherent(script, Listed(regs))
    ensures ValidRun(INIT, run)
    ensures var t := After(INIT, run);
      && (forall k: Kind :: Held(coordinator, k) == Resources(t.lists.At(k)))
      && coordinator.calls == t.calls && 0 in t.returned && finalErr == t.returned[0]
    ensures finalErr == FirstOf(FullReport(|Named(regs, Cleanup)|, script))
    ensures forall k: Kind :: Held(coordinator, k) == Named(regs, k)
  {
    coordinator := NewlyRegistered(regs);
    CoherentNamed(regs, script);
    finalErr := ShutDown(coordinator, regs, script);
    run := LifeIsARun(regs, 0, script);
    run := Steps(regs) + run;
  }
}
