/** When what observers hear about a connection is a chain: exactly when its id had
    no monitor yet. With two monitors on one object both may read the same old
    certificate. */
module OverlappingRotations {
  import opened Common
  import opened Connections
  import opened RotationProtocol
  import opened ObserverTrace
  import opened UndisturbedRotation
  import opened RotationChain

  lemma Extend(s: System, run: seq<Step>, step: Step) returns (more: seq<Step>)
    requires Invariant(s) && ValidRun(s, run) && Enabled(After(s, run), step)
    ensures ValidRun(s, more) && After(s, more) == Do(After(s, run), step)
  {
    OneStep(After(s, run), step);
    RunsCompose(s, run, [step]);
    more := run + [step];
  }

  lemma Append(s: System, run: seq<Step>, rest: seq<Step>) returns (more: seq<Step>)
    requires Invariant(s) && ValidRun(s, run) && ValidRun(After(s, run), rest)
    ensures ValidRun(s, more) && After(s, more) == After(After(s, run), rest)
  {
    RunsCompose(s, run, rest);
    more := run + rest;
  }

  // ---- One rotation, taken apart ------------------------------------------------

  const ALWAYS: RotationPolicy := RotationPolicy(0, 0)

  /** An idle monitor finds its connection due. */
  lemma FindDue(s: System, m: nat, now: Time) returns (run: seq<Step>)
    requires Invariant(s) && m < |s.monitors| && s.monitors[m].pc.Idle? && s.monitors[m].id in s.reg.connections
    requires var o := s.reg.connections[s.monitors[m].id];
      o < |s.reg.objects| && s.reg.objects[o].state != Closed && s.reg.objects[o].lastRotated <= now
    ensures ValidRun(s, run) && After(s, run) == Moved(s, m, Starting)
  {
    run := Extend(s, [], LookUp(m));
    run := Extend(s, run, LookAtState(m));
    run := Extend(s, run, Decide(m, ALWAYS, now));
  }

  /** And marks it. */
  lemma Enter(s: System, m: nat, now: Time) returns (run: seq<Step>)
    requires Invariant(s) && m < |s.monitors| && s.monitors[m].pc.Idle? && s.monitors[m].id in s.reg.connections
    requires var o := s.reg.connections[s.monitors[m].id];
      o < |s.reg.objects| && s.reg.objects[o].state != Closed && s.reg.objects[o].lastRotated <= now
    ensures ValidRun(s, run)
    ensures var o := s.reg.connections[s.monitors[m].id]; var job := Job(o, |s.rotations|);
      After(s, run) == Moved(s, m, Fetching(job)).(
        reg := s.reg.SetState(o, Rotating), rotations := s.rotations + [s.observers],
        log := s.log + Events(job, OnStarted, 0, s.observers))
  {
    run := FindDue(s, m, now);
    var rest := Begin(After(s, run), m);
    run := Append(s, run, rest);
  }

  /** It gets a certificate and reads the one in use. */
  lemma ReadBoth(s: System, m: nat, fetched: Certificate) returns (run: seq<Step>)
    requires Invariant(s) && m < |s.monitors| && s.monitors[m].pc.Fetching?
    ensures ValidRun(s, run)
    ensures var job := s.monitors[m].pc.job;
      job.obj < |s.reg.objects| && After(s, run) == Moved(s, m, Updating(job, s.reg.objects[job.obj].cert, fetched))
  {
    assert Bounded(s, s.monitors[m].pc);
    run := Extend(s, [], FetchSucceeds(m, fetched));
    run := Extend(s, run, ReadOld(m));
  }

  /** It installs what it fetched and tells what it read. */
  lemma Leave(s: System, m: nat, now: Time) returns (run: seq<Step>)
    requires Invariant(s) && m < |s.monitors| && s.monitors[m].pc.Updating?
    ensures ValidRun(s, run)
    ensures var pc := s.monitors[m].pc;
      && pc.job.obj < |s.reg.objects|
      && After(s, run) == Moved(s, m, Idle).(
           reg := s.reg.UpdateRotation(pc.job.obj, pc.after, now),
           log := s.log + Events(pc.job, OnCompleted(pc.before, pc.after), 0, s.observers))
  {
    assert Bounded(s, s.monitors[m].pc);
    run := Extend(s, [], Install(m, now));
    var rest := NotifyAll(After(s, run), m);
    run := Append(s, run, rest);
  }

  /** What a round of notifications adds to the completions that `i` heard about `o`. */
  lemma {:induction false} CompletionsOfEvents(log: seq<Event>, job: Job, note: Note, of: nat, i: nat, o: nat)
    ensures Completions(log + Events(job, note, 0, of), i, o) ==
            if job.obj == o && note.OnCompleted? && i < of then Completions(log, i, o) + [Event(i, job, note)]
            else Completions(log, i, o)
  {
    if of == 0 {
      assert log + Events(job, note, 0, 0) == log;
    } else {
      CompletionsOfEvents(log, job, note, of - 1, i, o);
      var told := log + Events(job, note, 0, of - 1);
      assert log + Events(job, note, 0, of) == told + [Event(of - 1, job, note)];
      SelectAppend(told, Event(of - 1, job, note), CompletionOf(i, o));
    }
  }

  // ---- Bringing a monitor home ------------------------------------------------------

  /** The connection is registered, open and as it was established, and observer `i`
      has heard of no completion. */
  ghost predicate Untried(s: System, id: string, o: nat, before: Option<Certificate>, at: Time, i: nat) {
    && id in s.reg.connections && s.reg.connections[id] == o && o < |s.reg.objects|
    && s.reg.objects[o].state != Closed && s.reg.objects[o].cert == before && s.reg.objects[o].lastRotated == at
    && i < s.observers && Completions(s.log, i, o) == []
  }

  /** The monitor is not on the way to replacing the certificate of `o`. */
  predicate Harmless(pc: Pc, o: nat) {
    && (pc.Swapping? || pc.Updating? ==> pc.job.obj != o)
    && ((pc.Noting? || pc.Telling?) && pc.note.OnCompleted? ==> pc.job.obj != o)
  }

  function Distance(pc: Pc): nat {
    match pc
    case Idle => 0
    case Telling(_, note, _, _) => if note.OnStarted? then 7 else 1
    case Noting(_, note) => if note.OnStarted? then 8 else 2
    case Updating(_, _, _) => 3
    case Swapping(_, _) => 4
    case Fetching(_) => 6
    case Holding(_) => 9
    case Starting => 10
    case Deciding(_) => 11
    case Checking(_) => 12
  }

  /** On its way home a monitor lets every fetch fail. */
  function HomeStep(pc: Pc, m: nat): Step {
    match pc
    case Idle => LookUp(m)
    case Telling(_, _, told, of) => if told < of then Tell(m) else AllTold(m)
    case Noting(_, _) => CopyObservers(m)
    case Updating(_, _, _) => Install(m, 0)
    case Swapping(_, _) => ReadOld(m)
    case Fetching(_) => FetchFails(m)
    case Holding(_) => MarkRotating(m)
    case Starting => LookUpAgain(m)
    case Deciding(_) => Decide(m, ALWAYS, 0)
    case Checking(_) => LookAtState(m)
  }

  lemma {:induction false} HomeStepMoves(s: System, m: nat, o: nat)
    requires Invariant(s) && m < |s.monitors| && !s.monitors[m].pc.Idle? && Harmless(s.monitors[m].pc, o)
    ensures var p := s.monitors[m].pc; var step := HomeStep(p, m);
      && Enabled(s, step)
      && var t := Do(s, step);
      && |t.monitors| == |s.monitors| && t.monitors == s.monitors[m := Monitor(s.monitors[m].id, t.monitors[m].pc)]
      && var q := t.monitors[m].pc;
      && Harmless(q, o)
      && (Distance(q) < Distance(p) || (Distance(q) == Distance(p) && 0 <= Untold(q) < Untold(p)))
  {
    assert Bounded(s, s.monitors[m].pc);
  }

  lemma {:induction false} HomeStepSpares(
      s: System, m: nat, id: string, o: nat, before: Option<Certificate>, at: Time, i: nat)
    requires Invariant(s) && m < |s.monitors| && !s.monitors[m].pc.Idle? && Harmless(s.monitors[m].pc, o)
    requires Untried(s, id, o, before, at, i) && Enabled(s, HomeStep(s.monitors[m].pc, m))
    ensures Untried(Do(s, HomeStep(s.monitors[m].pc, m)), id, o, before, at, i)
  {
    CompletionsGrow(s, HomeStep(s.monitors[m].pc, m), i, o);
  }

  lemma {:induction false} GoHome(
      s: System, m: nat, id: string, o: nat, before: Option<Certificate>, at: Time, i: nat) returns (run: seq<Step>)
    requires Invariant(s) && m < |s.monitors| && Harmless(s.monitors[m].pc, o) && Untried(s, id, o, before, at, i)
    ensures ValidRun(s, run) && Untried(After(s, run), id, o, before, at, i)
    ensures After(s, run).monitors == s.monitors[m := Monitor(s.monitors[m].id, Idle)]
    decreases Distance(s.monitors[m].pc), Untold(s.monitors[m].pc)
  {
    run := [];
    if !s.monitors[m].pc.Idle? {
      var step := HomeStep(s.monitors[m].pc, m);
      HomeStepMoves(s, m, o);
      HomeStepSpares(s, m, id, o, before, at, i);
      StepKeepsInvariant(s, step);
      OneStep(s, step);
      var rest := GoHome(Do(s, step), m, id, o, before, at, i);
      run := Append(s, [step], rest);
    }
  }

  // ---- The race -------------------------------------------------------------------

  /** Both monitors work on `o`, whose certificate is `cert`, and `heard` is what
      observer `i` knows. */
  ghost predicate Racing(s: System, m: nat, n: nat, p: Pc, q: Pc, o: nat, cert: Option<Certificate>, i: nat,
                         heard: seq<Event>) {
    && m < n < |s.monitors| && s.monitors[m].pc == p && s.monitors[n].pc == q
    && o < |s.reg.objects| && s.reg.objects[o].cert == cert
    && i < s.observers && Completions(s.log, i, o) == heard
  }

  lemma OneEnters(s: System, m: nat, id: string, o: nat, before: Option<Certificate>, at: Time, i: nat)
    returns (run: seq<Step>)
    requires Invariant(s) && m < |s.monitors| && Untried(s, id, o, before, at, i) && s.monitors[m] == Monitor(id, Idle)
    ensures ValidRun(s, run) && Untried(After(s, run), id, o, before, at, i)
    ensures After(s, run).monitors == s.monitors[m := Monitor(id, Fetching(Job(o, |s.rotations|)))]
    ensures |After(s, run).rotations| == |s.rotations| + 1
  {
    run := Enter(s, m, at);
    CompletionsOfEvents(s.log, Job(o, |s.rotations|), OnStarted, s.observers, i, o);
  }

  lemma BothEnter(s: System, m: nat, n: nat, id: string, o: nat, before: Option<Certificate>, at: Time, i: nat)
    returns (run: seq<Step>, r: nat)
    requires Invariant(s) && m < n < |s.monitors| && Untried(s, id, o, before, at, i)
    requires s.monitors[m] == Monitor(id, Idle) && s.monitors[n] == Monitor(id, Idle)
    ensures ValidRun(s, run)
    ensures Racing(After(s, run), m, n, Fetching(Job(o, r)), Fetching(Job(o, r + 1)), o, before, i, [])
  {
    r := |s.rotations|;
    run := OneEnters(s, m, id, o, before, at, i);
    var rest := OneEnters(After(s, run), n, id, o, before, at, i);
    run := Append(s, run, rest);
  }

  lemma BothRead(s: System, m: nat, n: nat, p: Job, q: Job, before: Option<Certificate>, i: nat,
                 second: Certificate, third: Certificate) returns (run: seq<Step>)
    requires Invariant(s) && p.obj == q.obj && Racing(s, m, n, Fetching(p), Fetching(q), p.obj, before, i, [])
    ensures ValidRun(s, run)
    ensures Racing(After(s, run), m, n, Updating(p, before, second), Updating(q, before, third), p.obj, before, i, [])
  {
    run := ReadBoth(s, m, second);
    var rest := ReadBoth(After(s, run), n, third);
    run := Append(s, run, rest);
  }

  lemma BothLeave(s: System, m: nat, n: nat, p: Job, q: Job, before: Option<Certificate>, i: nat,
                  second: Certificate, third: Certificate) returns (run: seq<Step>)
    requires Invariant(s) && p.obj == q.obj
    requires Racing(s, m, n, Updating(p, before, second), Updating(q, before, third), p.obj, before, i, [])
    ensures ValidRun(s, run)
    ensures Completions(After(s, run).log, i, p.obj) ==
            [Event(i, p, OnCompleted(before, second)), Event(i, q, OnCompleted(before, third))]
  {
    run := Leave(s, m, 0);
    CompletionsOfEvents(s.log, p, OnCompleted(before, second), s.observers, i, p.obj);
    var t := After(s, run);
    var rest := Leave(t, n, 0);
    CompletionsOfEvents(t.log, q, OnCompleted(before, third), t.observers, i, p.obj);
    run := Append(s, run, rest);
  }

  /** Two monitors of one connection, wherever they are: a new observer can hear the
      same certificate replaced twice. */
  lemma TwoMonitorsBreakChain(s: System, m: nat, n: nat, id: string, o: nat) returns (run: seq<Step>)
    requires Invariant(s) && InScope(s) && m < n < |s.monitors| && s.monitors[m].id == id && s.monitors[n].id == id
    requires Harmless(s.monitors[m].pc, o) && Harmless(s.monitors[n].pc, o)
    requires id in s.reg.connections && s.reg.connections[id] == o && o < |s.reg.objects|
            && s.reg.objects[o].state != Closed
    ensures ValidRun(s, run) && !Linked(Completions(After(s, run).log, s.observers, o))
  {
    var i, before, at := s.observers, s.reg.objects[o].cert, s.reg.objects[o].lastRotated;
    var second := Certificate(if before.Some? then before.value.serial + 1 else 0, "", 0, 0);
    SelectNone(s.log, CompletionOf(i, o));
    run := Extend(s, [], AddObserver);
    var rest := GoHome(After(s, run), m, id, o, before, at, i);
    run := Append(s, run, rest);
    rest := GoHome(After(s, run), n, id, o, before, at, i);
    run := Append(s, run, rest);
    var r;
    rest, r := BothEnter(After(s, run), m, n, id, o, before, at, i);
    run := Append(s, run, rest);
    rest := BothRead(After(s, run), m, n, Job(o, r), Job(o, r + 1), before, i, second, second);
    run := Append(s, run, rest);
    rest := BothLeave(After(s, run), m, n, Job(o, r), Job(o, r + 1), before, i, second, second);
    run := Append(s, run, rest);
    var c := Completions(After(s, run).log, i, o);
    assert c[1].note.before != Some(c[0].note.after);
  }

  // ---- The exact condition ------------------------------------------------------------

  /** Whatever happens next, every observer hears a chain about object `o`. */
  ghost predicate AlwaysChained(s: System, o: nat)
    requires Invariant(s)
  {
    forall run, i: nat :: ValidRun(s, run) ==> Linked(Completions(After(s, run).log, i, o))
  }

  /** A connection just established, in any reachable state, is always chained if and
      only if at most one monitor works under its id. */
  lemma EstablishedChainIff(s: System, id: string, local: Identity, remote: Identity, cert: Option<Certificate>,
                            now: Time)
    requires Invariant(s) && InScope(s)
    ensures var t := Do(s, Establish(id, local, remote, cert, now));
      Invariant(t) && (AlwaysChained(t, |s.reg.objects|) <==> OneMonitorOf(t, id))
  {
    var t, o := Do(s, Establish(id, local, remote, cert, now)), |s.reg.objects|;
    EstablishedIsFresh(s, id, local, remote, cert, now, 0);
    if OneMonitorOf(t, id) {
      forall run, i: nat | ValidRun(t, run) ensures Linked(Completions(After(t, run).log, i, o)) {
        EstablishedIsFresh(s, id, local, remote, cert, now, i);
        OneReachesChains(t, run, i, o);
      }
    } else {
      var m: nat, n: nat :| m < n < |t.monitors| && t.monitors[m].id == id && t.monitors[n].id == id;
      var run := TwoMonitorsBreakChain(t, m, n, id, o);
    }
  }

  /** What a caller can check before it establishes a connection with a certificate:
      the chain is kept if and only if the id has never had a monitor. */
  lemma FreshIdIff(run: seq<Step>, id: string, local: Identity, remote: Identity, cert: Certificate, now: Time)
    requires ValidRun(INIT, run)
    ensures var s := After(INIT, run); var t := Do(s, Establish(id, local, remote, Some(cert), now));
      Invariant(t) &&
      (AlwaysChained(t, |s.reg.objects|) <==> forall m :: 0 <= m < |s.monitors| ==> s.monitors[m].id != id)
  {
    var s := After(INIT, run);
    ReachableInScope(INIT, run);
    EstablishedChainIff(s, id, local, remote, Some(cert), now);
    OneMoreMonitor(s.monitors, id);
  }

  lemma OneMoreMonitor(monitors: seq<Monitor>, id: string)
    ensures var more := monitors + [Monitor(id, Idle)];
      (forall m, n :: 0 <= m < n < |more| ==> !(more[m].id == id && more[n].id == id)) <==>
      forall m :: 0 <= m < |monitors| ==> monitors[m].id != id
  {
    var more := monitors + [Monitor(id, Idle)];
    assert more[|monitors|].id == id;
    if m :| 0 <= m < |monitors| && monitors[m].id == id {
      assert more[m].id == id;
    }
  }
}
