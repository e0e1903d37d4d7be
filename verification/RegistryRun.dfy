/** The registry object does what a run of the step machine does: every request leaves
    the same connections behind and has called the same observers with the same news. */
module RegistryRun {
  import opened Common
  import opened Connections
  import opened ConnectionRegistry
  import opened RotationProtocol
  import opened RotationChain
  import opened UndisturbedRotation

  function NoticeOf(note: Note, id: string): Notice {
    match note
    case OnStarted => OnRotationStarted(id)
    case OnCompleted(before, after) => OnRotationCompleted(id, before, after)
    case OnFailed => OnRotationFailed(id)
  }

  /** The observer calls that a log stands for. */
  ghost function HeardIn(s: System, observers: seq<string>): (calls: seq<Call>)
    requires InScope(s) && |observers| == s.observers
    ensures |calls| == |s.log|
    ensures forall i :: 0 <= i < |s.log| ==>
              && s.log[i].observer < |observers| && s.log[i].job.obj < |s.reg.objects|
              && calls[i] == Call(observers[s.log[i].observer],
                                  NoticeOf(s.log[i].note, s.reg.objects[s.log[i].job.obj].id))
  {
    seq(|s.log|, i requires 0 <= i < |s.log| =>
      assert s.log[i] in s.log;
      Call(observers[s.log[i].observer], NoticeOf(s.log[i].note, s.reg.objects[s.log[i].job.obj].id)))
  }

  ghost predicate AllIdle(s: System) {
    forall m :: 0 <= m < |s.monitors| ==> s.monitors[m].pc.Idle?
  }

  /** Between two requests the object shows this state of the machine. */
  ghost predicate Mirrors(s: System, reg: Registry, observers: seq<string>, calls: seq<Call>) {
    && Invariant(s) && InScope(s) && AllIdle(s)
    && s.reg == reg && s.observers == |observers| && calls == HeardIn(s, observers)
  }

  ghost predicate HasMonitor(s: System, id: string) {
    exists m :: 0 <= m < |s.monitors| && s.monitors[m].id == id
  }

  /** Every registered connection is watched: it was established with a certificate. */
  ghost predicate Watched(s: System) {
    forall id :: id in s.reg.connections ==> HasMonitor(s, id)
  }

  ghost predicate SameIds(s: System, t: System) {
    |s.reg.objects| <= |t.reg.objects|
    && forall o :: 0 <= o < |s.reg.objects| ==> t.reg.objects[o].id == s.reg.objects[o].id
  }

  lemma HeardBefore(s: System, t: System, observers: seq<string>, more: seq<string>)
    requires InScope(s) && InScope(t) && |observers| == s.observers && |more| == t.observers
    requires s.log <= t.log && observers <= more && SameIds(s, t)
    ensures HeardIn(s, observers) <= HeardIn(t, more)
  {
    forall i | 0 <= i < |s.log| ensures HeardIn(s, observers)[i] == HeardIn(t, more)[i] {
      assert s.log[i] == t.log[i];
    }
  }

  // ---- Requests that are one step ----------------------------------------------------

  lemma {:induction false} StandingStill(s: System, step: Step)
    requires Invariant(s) && InScope(s) && AllIdle(s) && !ByMonitor(step)
    ensures Enabled(s, step) && ValidRun(s, [step]) && After(s, [step]) == Do(s, step)
    ensures Invariant(Do(s, step)) && InScope(Do(s, step)) && AllIdle(Do(s, step))
    ensures NeverOverlaps(s, [step])
  {
    OneStep(s, step);
    StepKeepsInvariant(s, step);
    StepKeepsInScope(s, step);
    assert [step][1..] == [];
  }

  /** Establishing, closing and adding an observer tell nobody anything. */
  lemma {:induction false} QuietStep(s: System, reg: Registry, observers: seq<string>, more: seq<string>,
                                     calls: seq<Call>, step: Step)
    requires Mirrors(s, reg, observers, calls) && !ByMonitor(step) && observers <= more
    requires |more| == Do(s, step).observers && SameIds(s, Do(s, step))
    ensures ValidRun(s, [step]) && NeverOverlaps(s, [step])
    ensures Mirrors(After(s, [step]), Do(s, step).reg, more, calls)
  {
    StandingStill(s, step);
    HeardBefore(s, Do(s, step), observers, more);
  }

  // ---- A check of a monitor ------------------------------------------------------------

  lemma {:induction false} OthersIdleNeverOverlaps(s: System, run: seq<Step>, m: nat)
    requires Invariant(s) && ValidRun(s, run) && ByOnly(run, m)
    requires forall n :: 0 <= n < |s.monitors| && n != m ==> s.monitors[n].pc.Idle?
    ensures NeverOverlaps(s, run)
    decreases |run|
  {
    if run != [] {
      StepKeepsInvariant(s, run[0]);
      OthersIdleNeverOverlaps(Do(s, run[0]), run[1..], m);
    }
  }

  lemma TwoSteps(s: System, run: seq<Step>, step: Step, m: nat) returns (more: seq<Step>)
    requires Invariant(s) && ValidRun(s, run) && Enabled(After(s, run), step)
    requires ByOnly(run, m) && ByMonitor(step) && step.m == m
    ensures ValidRun(s, more) && After(s, more) == Do(After(s, run), step) && ByOnly(more, m)
  {
    OneStep(After(s, run), step);
    RunsCompose(s, run, [step]);
    more := run + [step];
  }

  /** An idle monitor of a registered connection looks, and starts exactly when there is
      a reason. */
  lemma Looks(s: System, m: nat, policy: RotationPolicy, now: Time) returns (run: seq<Step>)
    requires Invariant(s) && m < |s.monitors| && s.monitors[m].pc.Idle? && s.monitors[m].id in s.reg.connections
    ensures ValidRun(s, run) && ByOnly(run, m)
    ensures var o := s.reg.connections[s.monitors[m].id];
      && o < |s.reg.objects|
      && After(s, run) ==
         Moved(s, m, if DetermineRotationReason(s.reg.objects[o], policy, now).None? then Idle else Starting)
  {
    OneStep(s, LookUp(m));
    run := TwoSteps(s, [LookUp(m)], LookAtState(m), m);
    run := TwoSteps(s, run, Decide(m, policy, now), m);
  }

  /** What a rotation adds to the log is what the object's observers heard. */
  lemma {:induction false} RotationIsHeard(s: System, t: System, observers: seq<string>, calls: seq<Call>, o: nat,
                                           fetched: Option<Certificate>)
    requires InScope(s) && InScope(t) && |observers| == s.observers == t.observers && SameIds(s, t)
    requires o < |s.reg.objects|
    requires var job := Job(o, |s.rotations|);
      t.log == s.log + Events(job, OnStarted, 0, s.observers)
               + Events(job, Ending(s.reg.objects[o].cert, fetched), 0, s.observers)
    requires HeardRotation(HeardIn(s, observers), calls, observers, s.reg.objects[o].id, s.reg.objects[o].cert, fetched)
    ensures calls == HeardIn(t, observers)
  {
    HeardBefore(s, t, observers, observers);
    forall k | |s.log| <= k < |t.log| ensures calls[k] == HeardIn(t, observers)[k] {
      var i := k - |s.log|;
      if i >= |observers| {
        assert k == |s.log| + |observers| + (i - |observers|);
      }
    }
  }

  lemma RotateKeepsIds(s: System, t: System, id: string, fetched: Option<Certificate>, now: Time)
    requires Invariant(s) && id in s.reg.connections && t.reg == s.reg.Rotate(id, fetched, now)
    ensures SameIds(s, t) && t.reg.connections == s.reg.connections
  {
  }

  /** A check of the object, due or not, is what one monitor does if left alone. */
  lemma CheckIsARun(s: System, reg: Registry, observers: seq<string>, calls: seq<Call>, after: seq<Call>, m: nat,
                    policy: RotationPolicy, now: Time, fetched: Option<Certificate>, installed: Time)
    returns (run: seq<Step>)
    requires Mirrors(s, reg, observers, calls) && m < |s.monitors| && s.monitors[m].id in reg.connections
    requires reg.connections[s.monitors[m].id] < |reg.objects|
    requires var id := s.monitors[m].id; var conn := reg.objects[reg.connections[id]];
      if DetermineRotationReason(conn, policy, now).None? then after == calls
      else HeardRotation(calls, after, observers, id, conn.cert, fetched)
    ensures ValidRun(s, run) && NeverOverlaps(s, run)
    ensures var id := s.monitors[m].id; var conn := reg.objects[reg.connections[id]];
      Mirrors(After(s, run),
              if DetermineRotationReason(conn, policy, now).None? then reg else reg.Rotate(id, fetched, installed),
              observers, after)
    ensures After(s, run).monitors == s.monitors
  {
    var id := s.monitors[m].id;
    var o := reg.connections[id];
    run := Looks(s, m, policy, now);
    var t := After(s, run);
    if DetermineRotationReason(reg.objects[o], policy, now).None? {
      assert t == s;
    } else {
      var rest := UndisturbedRotationIsAtomic(t, m, fetched, installed);
      RunsCompose(s, run, rest);
      run := run + rest;
      var u := After(s, run);
      ReachableInScope(s, run);
      RotateKeepsIds(s, u, id, fetched, installed);
      assert reg.objects[o].id == id;
      RotationIsHeard(s, u, observers, after, o, fetched);
      assert u.monitors == s.monitors;
    }
    OthersIdleNeverOverlaps(s, run, m);
  }

  // ---- The object -----------------------------------------------------------------------

  datatype Request =
    | Establish(id: string, local: Identity, remote: Identity, cert: Option<Certificate>, now: Time)
    | Close(id: string)
    | AddObserver(name: string)
    | SetPolicy(policy: RotationPolicy)
    | Check(id: string, now: Time, fetched: Option<Certificate>, installed: Time)

  ghost predicate Shows(registry: MTLSConnectionRegistry, s: System)
    reads registry, registry.objects
  {
    registry.Valid() && Mirrors(s, registry.View(), registry.observers, registry.calls)
  }

  lemma EstablishKeepsWatched(s: System, step: Step)
    requires Invariant(s) && Watched(s) && step.Establish? && step.cert.Some?
    ensures Watched(Do(s, step))
  {
    var t := Do(s, step);
    assert t.monitors[|s.monitors|].id == step.id;
    forall id | id in t.reg.connections ensures HasMonitor(t, id) {
      if id != step.id {
        var m :| 0 <= m < |s.monitors| && s.monitors[m].id == id;
        assert t.monitors[m].id == id;
      }
    }
  }

  method ServeEstablish(registry: MTLSConnectionRegistry, request: Request, ghost s: System)
    returns (panicked: bool, ghost run: seq<Step>)
    requires request.Establish? && Shows(registry, s) && Watched(s)
    modifies registry
    ensures ValidRun(s, run) && NeverOverlaps(s, run) && Shows(registry, After(s, run))
    ensures !panicked ==> Watched(After(s, run))
    ensures panicked <==> request.cert.None?
    ensures forall o :: o in registry.objects ==> o in old(registry.objects) || fresh(o)
  {
    ghost var step := RotationProtocol.Establish(request.id, request.local, request.remote, request.cert, request.now);
    ghost var reg := registry.View();
    var _, p := registry.EstablishConnection(request.id, request.remote, request.cert, request.local, request.now);
    panicked := p;
    run := [step];
    QuietStep(s, reg, registry.observers, registry.observers, registry.calls, step);
    if request.cert.Some? {
      EstablishKeepsWatched(s, step);
    }
  }

  method ServeClose(registry: MTLSConnectionRegistry, id: string, ghost s: System) returns (ghost run: seq<Step>)
    requires Shows(registry, s) && Watched(s)
    modifies registry, registry.objects
    ensures ValidRun(s, run) && NeverOverlaps(s, run) && Shows(registry, After(s, run)) && Watched(After(s, run))
    ensures registry.objects == old(registry.objects)
  {
    ghost var step := RotationProtocol.Close(id);
    ghost var reg := registry.View();
    registry.CloseConnection(id);
    run := [step];
    QuietStep(s, reg, registry.observers, registry.observers, registry.calls, step);
  }

  method ServeAddObserver(registry: MTLSConnectionRegistry, name: string, ghost s: System)
    returns (ghost run: seq<Step>)
    requires Shows(registry, s) && Watched(s)
    modifies registry
    ensures ValidRun(s, run) && NeverOverlaps(s, run) && Shows(registry, After(s, run)) && Watched(After(s, run))
    ensures registry.objects == old(registry.objects)
  {
    ghost var observers := registry.observers;
    ghost var reg := registry.View();
    registry.AddRotationObserver(name);
    run := [RotationProtocol.AddObserver];
    QuietStep(s, reg, observers, registry.observers, registry.calls, RotationProtocol.AddObserver);
  }

  method ServeCheck(registry: MTLSConnectionRegistry, request: Request, ghost s: System)
    returns (panicked: bool, ghost run: seq<Step>)
    requires request.Check? && Shows(registry, s) && Watched(s)
    modifies registry, registry.objects
    ensures ValidRun(s, run) && NeverOverlaps(s, run) && Shows(registry, After(s, run)) && Watched(After(s, run))
    ensures registry.objects == old(registry.objects)
  {
    ghost var reg, observers, calls := registry.View(), registry.observers, registry.calls;
    registry.ViewIsValid();
    var outcome := registry.CheckAndRotateConnection(request.id, request.now, request.fetched, request.installed);
    panicked := outcome == Panicked;
    run := [];
    if request.id in registry.connections {
      assert request.id in s.reg.connections && HasMonitor(s, request.id);
      ghost var m :| 0 <= m < |s.monitors| && s.monitors[m].id == request.id;
      run := CheckIsARun(s, reg, observers, calls, registry.calls, m, registry.rotationPolicy, request.now,
                         request.fetched, request.installed);
      CheckKeepsWatched(s, After(s, run));
    }
  }

  lemma CheckKeepsWatched(s: System, t: System)
    requires Watched(s) && t.monitors == s.monitors && t.reg.connections == s.reg.connections
    ensures Watched(t)
  {
    forall id | id in t.reg.connections ensures HasMonitor(t, id) {
      assert HasMonitor(s, id);
      var m :| 0 <= m < |s.monitors| && s.monitors[m].id == id;
      assert t.monitors[m].id == id;
    }
  }

  method Serve(registry: MTLSConnectionRegistry, request: Request, ghost s: System)
    returns (panicked: bool, ghost run: seq<Step>)
    requires Shows(registry, s) && Watched(s)
    modifies registry, registry.objects
    ensures ValidRun(s, run) && NeverOverlaps(s, run) && Shows(registry, After(s, run))
    ensures !panicked ==> Watched(After(s, run))
    ensures forall o :: o in registry.objects ==> o in old(registry.objects) || fresh(o)
  {
    panicked := false;
    match request
    case Establish(_, _, _, _, _) => panicked, run := ServeEstablish(registry, request, s);
    case Close(id) => run := ServeClose(registry, id, s);
    case AddObserver(name) => run := ServeAddObserver(registry, name, s);
    case SetPolicy(policy) =>
      run := [];
      registry.SetRotationPolicy(policy);
    case Check(_, _, _, _) => panicked, run := ServeCheck(registry, request, s);
  }

  ghost predicate AllChained(s: System) {
    forall i: nat, o: nat :: Chained(s, i, o)
  }

  lemma RunKeepsAllChained(s: System, run: seq<Step>)
    requires Invariant(s) && InScope(s) && AllChained(s) && ValidRun(s, run) && NeverOverlaps(s, run)
    ensures AllChained(After(s, run))
  {
    forall i: nat, o: nat ensures Chained(After(s, run), i, o) {
      RunKeepsChained(s, run, i, o);
    }
  }

  /** A registry serves any requests one after the other, until one panics: what it then
      holds, and every observer call it has made, is that of a run of the step machine,
      and what each observer heard of each connection is a chain of certificates. */
  method Drive(requests: seq<Request>) returns (registry: MTLSConnectionRegistry, ghost run: seq<Step>)
    ensures ValidRun(INIT, run) && Shows(registry, After(INIT, run))
    ensures forall i: nat, o: nat :: Linked(Completions(After(INIT, run).log, i, o))
  {
    registry := new MTLSConnectionRegistry();
    run := [];
    var n, panicked := 0, false;
    while n < |requests| && !panicked
      invariant n <= |requests| && ValidRun(INIT, run)
      invariant fresh(registry) && fresh(registry.objects)
      invariant Shows(registry, After(INIT, run)) && AllChained(After(INIT, run))
      invariant !panicked ==> Watched(After(INIT, run))
    {
      ghost var s, more := After(INIT, run), [];
      panicked, more := Serve(registry, requests[n], s);
      forall k | 0 <= k < |registry.objects| ensures fresh(registry.objects[k]) {
        assert registry.objects[k] in registry.objects;
      }
      RunKeepsAllChained(s, more);
      RunsCompose(INIT, run, more);
      run, n := run + more, n + 1;
    }
    forall i: nat, o: nat ensures Linked(Completions(After(INIT, run).log, i, o)) {
      assert Chained(After(INIT, run), i, o);
    }
  }

  /** Two rotations of one connection in a row: every observer hears the second replace
      what the first installed. */
  method RotateTwice(registry: MTLSConnectionRegistry, id: string, first: Certificate, second: Certificate,
                     now: Time, later: Time)
    requires registry.Valid() && id in registry.connections
    modifies registry`calls, registry.objects
    ensures var n, was := |registry.observers|, |old(registry.calls)|;
      && |registry.calls| == was + 4 * n
      && forall i :: 0 <= i < n ==>
           && registry.calls[was + n + i] ==
              Call(registry.observers[i], OnRotationCompleted(id, old(registry.connections[id].cert), first))
           && registry.calls[was + 3 * n + i] ==
              Call(registry.observers[i], OnRotationCompleted(id, Some(first), second))
  {
    var _ := registry.RotateConnection(id, Some(first), now);
    ghost var between := registry.calls;
    var _ := registry.RotateConnection(id, Some(second), later);
    assert forall i :: 0 <= i < |between| ==> registry.calls[i] == between[i];
    assert |between| + |registry.observers| == |old(registry.calls)| + 3 * |registry.observers|;
  }
}
