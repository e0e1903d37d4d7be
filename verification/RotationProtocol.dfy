/** Every interleaving of establishing, closing and rotating connections. Each
    step is one stretch of code between two lock operations; every call of
    EstablishConnection with a certificate leaves a monitor goroutine behind for its
    id; one without a certificate panics before that. */
module RotationProtocol {
  import opened Common
  import opened Connections

  /** What an observer is told. */
  datatype Note = OnStarted | OnCompleted(before: Option<Certificate>, after: Certificate) | OnFailed

  /** The `rotation`-th rotation to have set an object to Rotating. */
  datatype Job = Job(obj: nat, rotation: nat)

  /** Where a monitor goroutine is. */
  datatype Pc =
    | Idle
    | Checking(obj: nat)                      // holds the pointer read by checkAndRotateConnection
    | Deciding(obj: nat)                      // saw that it is not closed
    | Starting                                // has found a reason to rotate
    | Holding(obj: nat)                       // holds the pointer read by rotateConnection
    | Noting(job: Job, note: Note)            // has changed the state, is about to copy the observer list
    | Telling(job: Job, note: Note, told: nat, of: nat)
    | Fetching(job: Job)
    | Swapping(job: Job, after: Certificate)    // has a valid certificate
    | Updating(job: Job, before: Option<Certificate>, after: Certificate)

  datatype Monitor = Monitor(id: string, pc: Pc)

  datatype Event = Event(observer: nat, job: Job, note: Note)

  /** `rotations[r]` is the number of observers when rotation r started;
      `log` are the calls made to observers, in order. */
  datatype System = System(reg: Registry, observers: nat, monitors: seq<Monitor>, rotations: seq<nat>, log: seq<Event>)

  const INIT := System(EMPTY, 0, [], [], [])

  datatype Step =
    | Establish(id: string, local: Identity, remote: Identity, cert: Option<Certificate>, now: Time)
    | Close(id: string)
    | AddObserver
    | LookUp(m: nat)
    | LookAtState(m: nat)
    | Decide(m: nat, policy: RotationPolicy, now: Time)
    | LookUpAgain(m: nat)
    | MarkRotating(m: nat)
    | CopyObservers(m: nat)
    | Tell(m: nat)
    | AllTold(m: nat)
    | FetchFails(m: nat)
    | FetchSucceeds(m: nat, fetched: Certificate)
    | ReadOld(m: nat)
    | Install(m: nat, now: Time)

  predicate ByMonitor(step: Step) {
    !step.Establish? && !step.Close? && !step.AddObserver?
  }

  /** The object a monitor's next steps may write to. */
  function Writes(pc: Pc): Option<nat> {
    match pc
    case Holding(o) => Some(o)
    case Noting(job, note) => if note.OnStarted? then Some(job.obj) else None
    case Telling(job, note, _, _) => if note.OnStarted? then Some(job.obj) else None
    case Fetching(job) => Some(job.obj)
    case Swapping(job, _) => Some(job.obj)
    case Updating(job, _, _) => Some(job.obj)
    case _ => None
  }

  /** A rotation is in flight from the moment it marks its object until it
      installs a certificate or marks it failed. */
  predicate InFlight(pc: Pc, o: nat) {
    !pc.Holding? && Writes(pc) == Some(o)
  }

  predicate Working(pc: Pc) {
    pc.Noting? || pc.Telling? || pc.Fetching? || pc.Swapping? || pc.Updating?
  }

  ghost predicate Bounded(s: System, pc: Pc) {
    && (pc.Checking? || pc.Deciding? || pc.Holding? ==> pc.obj < |s.reg.objects|)
    && (Working(pc) ==> pc.job.obj < |s.reg.objects| && pc.job.rotation < |s.rotations|)
    && (pc.Telling? ==> pc.told <= pc.of <= s.observers)
  }

  ghost predicate WellFormed(s: System) {
    && s.reg.Valid()
    && (forall m :: 0 <= m < |s.monitors| ==> Bounded(s, s.monitors[m].pc))
  }

  ghost predicate Enabled(s: System, step: Step) {
    if ByMonitor(step) then
      step.m < |s.monitors| &&
      var pc := s.monitors[step.m].pc;
      match step
      case LookUp(_) => pc.Idle?
      case LookAtState(_) => pc.Checking?
      case Decide(_, _, _) => pc.Deciding?
      case LookUpAgain(_) => pc.Starting?
      case MarkRotating(_) => pc.Holding?
      case CopyObservers(_) => pc.Noting?
      case Tell(_) => pc.Telling? && pc.told < pc.of
      case AllTold(_) => pc.Telling? && pc.told == pc.of
      case FetchFails(_) => pc.Fetching?
      case FetchSucceeds(_, _) => pc.Fetching?
      case ReadOld(_) => pc.Swapping?
      case Install(_, _) => pc.Updating?
    else true
  }

  ghost function Moved(s: System, m: nat, pc: Pc): System
    requires m < |s.monitors|
  {
    s.(monitors := s.monitors[m := s.monitors[m].(pc := pc)])
  }

  ghost function Do(s: System, step: Step): System
    requires WellFormed(s) && Enabled(s, step)
  {
    match step
    case Establish(id, local, remote, cert, now) =>
      s.(reg := s.reg.Establish(id, local, remote, cert, now),
         monitors := if cert.Some? then s.monitors + [Monitor(id, Idle)] else s.monitors)
    case Close(id) => s.(reg := s.reg.Close(id))
    case AddObserver => s.(observers := s.observers + 1)
    case LookUp(m) =>
      var id := s.monitors[m].id;
      Moved(s, m, if id in s.reg.connections then Checking(s.reg.connections[id]) else Idle)
    case LookAtState(m) =>
      var o := s.monitors[m].pc.obj;
      Moved(s, m, if s.reg.objects[o].state == Closed then Idle else Deciding(o))
    case Decide(m, policy, now) =>
      var conn := s.reg.objects[s.monitors[m].pc.obj];
      Moved(s, m, if DetermineRotationReason(conn, policy, now).None? then Idle else Starting)
    case LookUpAgain(m) =>
      var id := s.monitors[m].id;
      Moved(s, m, if id in s.reg.connections then Holding(s.reg.connections[id]) else Idle)
    case MarkRotating(m) =>
      var o := s.monitors[m].pc.obj;
      Moved(s, m, Noting(Job(o, |s.rotations|), OnStarted)).(
        reg := s.reg.SetState(o, Rotating), rotations := s.rotations + [s.observers])
    case CopyObservers(m) =>
      var pc := s.monitors[m].pc;
      Moved(s, m, Telling(pc.job, pc.note, 0, s.observers))
    case Tell(m) =>
      var pc := s.monitors[m].pc;
      Moved(s, m, pc.(told := pc.told + 1)).(log := s.log + [Event(pc.told, pc.job, pc.note)])
    case AllTold(m) =>
      var pc := s.monitors[m].pc;
      Moved(s, m, if pc.note.OnStarted? then Fetching(pc.job) else Idle)
    case FetchFails(m) =>
      var pc := s.monitors[m].pc;
      Moved(s, m, Noting(pc.job, OnFailed)).(reg := s.reg.SetState(pc.job.obj, Failed))
    case FetchSucceeds(m, fetched) => Moved(s, m, Swapping(s.monitors[m].pc.job, fetched))
    case ReadOld(m) =>
      var pc := s.monitors[m].pc;
      Moved(s, m, Updating(pc.job, s.reg.objects[pc.job.obj].cert, pc.after))
    case Install(m, now) =>
      var pc := s.monitors[m].pc;
      Moved(s, m, Noting(pc.job, OnCompleted(pc.before, pc.after))).(
        reg := s.reg.UpdateRotation(pc.job.obj, pc.after, now))
  }

  ghost predicate HasRotation(s: System, o: nat) {
    exists m :: 0 <= m < |s.monitors| && InFlight(s.monitors[m].pc, o)
  }

  ghost predicate RotatingIsInFlight(s: System) {
    forall o: nat :: o < |s.reg.objects| && s.reg.objects[o].state == Rotating ==> HasRotation(s, o)
  }

  ghost predicate Invariant(s: System) {
    WellFormed(s) && RotatingIsInFlight(s)
  }

  lemma StepKeepsRegistryValid(s: System, step: Step)
    requires WellFormed(s) && Enabled(s, step)
    ensures Do(s, step).reg.Valid()
  {
    var reg := s.reg;
    if step.Close? && step.id in reg.connections {
      forall k | k in reg.connections && k != step.id ensures reg.connections[k] != reg.connections[step.id] {
        assert reg.objects[reg.connections[k]].id == k;
      }
    }
  }

  lemma StepKeepsBounded(s: System, step: Step, m: nat)
    requires WellFormed(s) && Enabled(s, step) && m < |Do(s, step).monitors|
    ensures Bounded(Do(s, step), Do(s, step).monitors[m].pc)
  {
    assert m < |s.monitors| ==> Bounded(s, s.monitors[m].pc);
  }

  lemma StepKeepsWellFormed(s: System, step: Step)
    requires WellFormed(s) && Enabled(s, step)
    ensures WellFormed(Do(s, step))
  {
    StepKeepsRegistryValid(s, step);
    forall m | 0 <= m < |Do(s, step).monitors| ensures Bounded(Do(s, step), Do(s, step).monitors[m].pc) {
      StepKeepsBounded(s, step, m);
    }
  }

  lemma StepKeepsRotation(s: System, step: Step, o: nat)
    requires Invariant(s) && Enabled(s, step)
    requires o < |Do(s, step).reg.objects| && Do(s, step).reg.objects[o].state == Rotating
    ensures HasRotation(Do(s, step), o)
  {
    var t := Do(s, step);
    if step.MarkRotating? && s.monitors[step.m].pc.obj == o {
      assert InFlight(t.monitors[step.m].pc, o);
    } else {
      var m :| 0 <= m < |s.monitors| && InFlight(s.monitors[m].pc, o);
      assert InFlight(t.monitors[m].pc, o);
    }
  }

  lemma StepKeepsInvariant(s: System, step: Step)
    requires Invariant(s) && Enabled(s, step)
    ensures Invariant(Do(s, step))
  {
    StepKeepsWellFormed(s, step);
    forall o: nat | o < |Do(s, step).reg.objects| && Do(s, step).reg.objects[o].state == Rotating
      ensures HasRotation(Do(s, step), o)
    {
      StepKeepsRotation(s, step, o);
    }
  }

  ghost predicate ValidRun(s: System, run: seq<Step>)
    requires Invariant(s)
    decreases |run|
  {
    run != [] ==> Enabled(s, run[0]) && (StepKeepsInvariant(s, run[0]); ValidRun(Do(s, run[0]), run[1..]))
  }

  ghost function After(s: System, run: seq<Step>): (t: System)
    requires Invariant(s) && ValidRun(s, run)
    ensures Invariant(t)
    decreases |run|
  {
    if run == [] then s else (StepKeepsInvariant(s, run[0]); After(Do(s, run[0]), run[1..]))
  }

  /** Every reachable state: ids match their keys, nothing registered is closed,
      and Rotating always has a rotation behind it. */
  lemma RegistrySafety(run: seq<Step>)
    requires ValidRun(INIT, run)
    ensures var t := After(INIT, run);
      && (forall k :: k in t.reg.connections ==>
            && t.reg.connections[k] < |t.reg.objects|
            && t.reg.objects[t.reg.connections[k]].id == k
            && t.reg.objects[t.reg.connections[k]].state != Closed)
      && RotatingIsInFlight(t)
  {
    assert Invariant(After(INIT, run));
  }

  ghost function Starts(step: Step): seq<string> {
    if step.Establish? && step.cert.Some? then [step.id] else []
  }

  /** The ids established with a certificate along a run, in order. */
  ghost function Watching(run: seq<Step>): seq<string> {
    if run == [] then [] else Starts(run[0]) + Watching(run[1..])
  }

  ghost function MonitorIds(s: System): (ids: seq<string>)
    ensures |ids| == |s.monitors|
  {
    seq(|s.monitors|, m requires 0 <= m < |s.monitors| => s.monitors[m].id)
  }

  lemma StepStartsMonitors(s: System, step: Step)
    requires WellFormed(s) && Enabled(s, step)
    ensures MonitorIds(Do(s, step)) == MonitorIds(s) + Starts(step)
  {
  }

  lemma FirstStep(s: System, run: seq<Step>)
    requires Invariant(s) && ValidRun(s, run) && run != []
    ensures Enabled(s, run[0]) && Invariant(Do(s, run[0])) && ValidRun(Do(s, run[0]), run[1..])
    ensures After(s, run) == After(Do(s, run[0]), run[1..])
  {
    StepKeepsInvariant(s, run[0]);
  }

  /** There is one monitor for each connection established with a certificate, under its
      id, and no other. */
  lemma {:induction false} MonitorsAreEstablished(s: System, run: seq<Step>)
    requires Invariant(s) && ValidRun(s, run)
    ensures MonitorIds(After(s, run)) == MonitorIds(s) + Watching(run)
    decreases |run|
  {
    if run != [] {
      FirstStep(s, run);
      var t, rest := Do(s, run[0]), run[1..];
      MonitorsAreEstablished(t, rest);
      calc {
        MonitorIds(After(s, run));
        MonitorIds(t) + Watching(rest);
        { StepStartsMonitors(s, run[0]); }
        (MonitorIds(s) + Starts(run[0])) + Watching(rest);
        { Regroup(MonitorIds(s), Starts(run[0]), Watching(rest)); }
        MonitorIds(s) + Watching(run);
      }
    }
  }

  ghost predicate NoTls(reg: Registry) {
    forall o :: 0 <= o < |reg.objects| ==> reg.objects[o].tls.None?
  }

  /** Nothing that establishes, closes or rotates connections sets a TLS state. */
  lemma {:induction false} TlsIsNeverSet(s: System, run: seq<Step>)
    requires Invariant(s) && ValidRun(s, run) && NoTls(s.reg)
    ensures NoTls(After(s, run).reg)
    decreases |run|
  {
    if run != [] {
      StepKeepsInvariant(s, run[0]);
      StepSetsNoTls(s, run[0]);
      TlsIsNeverSet(Do(s, run[0]), run[1..]);
    }
  }

  lemma {:induction false} StepSetsNoTls(s: System, step: Step)
    requires Invariant(s) && Enabled(s, step) && NoTls(s.reg)
    ensures NoTls(Do(s, step).reg)
  {
  }

  lemma StepNeverRegistersOldObject(s: System, step: Step, o: nat)
    requires Invariant(s) && Enabled(s, step)
    requires o < |s.reg.objects| && !s.reg.Registered(o)
    ensures o < |Do(s, step).reg.objects| && !Do(s, step).reg.Registered(o)
  {
    assert forall k :: k in s.reg.connections ==> s.reg.connections[k] != o;
  }

  /** An object that has left the registry, closed or replaced, never comes back. */
  lemma {:induction false} UnregisteredForGood(s: System, run: seq<Step>, o: nat)
    requires Invariant(s) && ValidRun(s, run)
    requires o < |s.reg.objects| && !s.reg.Registered(o)
    ensures o < |After(s, run).reg.objects| && !After(s, run).reg.Registered(o)
    decreases |run|
  {
    if run != [] {
      StepKeepsInvariant(s, run[0]);
      StepNeverRegistersOldObject(s, run[0], o);
      UnregisteredForGood(Do(s, run[0]), run[1..], o);
    }
  }

  lemma CloseUnregisters(s: System, id: string)
    requires Invariant(s) && id in s.reg.connections
    ensures var t := Do(s, Close(id)); var o := s.reg.connections[id];
      && id !in t.reg.connections && !t.reg.Registered(o)
      && t.reg.objects[o].state == Closed
  {
    var t, o := Do(s, Close(id)), s.reg.connections[id];
    forall k | k in t.reg.connections ensures t.reg.connections[k] != o {
      assert s.reg.objects[s.reg.connections[k]].id == k;
    }
  }

  // ---- What a check starts ----------------------------------------------------------------

  /** A monitor that holds an object goes on to rotate exactly when the object is not closed
      and it has failed, or was last rotated the forced interval ago, or its certificate
      ends within the threshold; neither look changes anything else. */
  lemma CheckStartsIff(s: System, m: nat, policy: RotationPolicy, now: Time)
    requires Invariant(s) && m < |s.monitors| && s.monitors[m].pc.Checking?
    ensures Enabled(s, LookAtState(m)) && WellFormed(Do(s, LookAtState(m)))
    ensures var o := s.monitors[m].pc.obj; var t := Do(s, LookAtState(m));
      && o < |s.reg.objects|
      && if s.reg.objects[o].state == Closed then t == Moved(s, m, Idle)
         else
           var conn := s.reg.objects[o];
           var due := conn.state == Failed || now >= conn.lastRotated + policy.forceRotationInterval
             || (conn.cert.Some? && conn.cert.value.notAfter <= now + policy.preRotationThreshold);
           && Enabled(t, Decide(m, policy, now))
           && Do(t, Decide(m, policy, now)) == Moved(s, m, if due then Starting else Idle)
  {
    assert Bounded(s, s.monitors[m].pc);
    StepKeepsWellFormed(s, LookAtState(m));
  }

  // ---- When closing is final -------------------------------------------

  ghost predicate Untouched(s: System, o: nat) {
    && o < |s.reg.objects| && s.reg.objects[o].state == Closed && !s.reg.Registered(o)
    && (forall m :: 0 <= m < |s.monitors| ==> Writes(s.monitors[m].pc) != Some(o))
  }

  ghost predicate StaysClosed(s: System, o: nat)
    requires Invariant(s) && o < |s.reg.objects|
  {
    forall run :: ValidRun(s, run) ==>
                    o < |After(s, run).reg.objects| && After(s, run).reg.objects[o].state == Closed
  }

  lemma StepKeepsUntouched(s: System, step: Step, o: nat)
    requires Invariant(s) && Enabled(s, step) && Untouched(s, o)
    ensures Untouched(Do(s, step), o)
  {
    StepNeverRegistersOldObject(s, step, o);
    var t := Do(s, step);
    forall m | 0 <= m < |t.monitors| ensures Writes(t.monitors[m].pc) != Some(o) {
      if m < |s.monitors| {
        assert Writes(s.monitors[m].pc) != Some(o);
      }
    }
  }

  lemma {:induction false} UntouchedStaysClosed(s: System, run: seq<Step>, o: nat)
    requires Invariant(s) && ValidRun(s, run) && Untouched(s, o)
    ensures Untouched(After(s, run), o)
    decreases |run|
  {
    if run != [] {
      StepKeepsInvariant(s, run[0]);
      StepKeepsUntouched(s, run[0], o);
      UntouchedStaysClosed(Do(s, run[0]), run[1..], o);
    }
  }

  ghost function Stage(pc: Pc): nat {
    if pc.Noting? || pc.Swapping? then 2 else if pc.Telling? then 1 else 0
  }

  ghost function Untold(pc: Pc): int {
    if pc.Telling? then pc.of - pc.told else 0
  }

  /** The next step of a holder: it writes, or it comes closer to writing. */
  lemma {:induction false} HolderMoves(s: System, m: nat, o: nat) returns (step: Step)
    requires Invariant(s) && m < |s.monitors| && Writes(s.monitors[m].pc) == Some(o)
    ensures Enabled(s, step)
    ensures var p := s.monitors[m].pc; var t := Do(s, step);
      if p.Noting? || p.Telling? || p.Swapping? then
        && m < |t.monitors| && Writes(t.monitors[m].pc) == Some(o)
        && (Stage(t.monitors[m].pc) < Stage(p) ||
            (Stage(t.monitors[m].pc) == Stage(p) && 0 <= Untold(t.monitors[m].pc) < Untold(p)))
      else o < |t.reg.objects| && t.reg.objects[o].state != Closed
  {
    assert Bounded(s, s.monitors[m].pc);
    step := match s.monitors[m].pc
      case Holding(_) => MarkRotating(m)
      case Noting(_, _) => CopyObservers(m)
      case Telling(_, _, told, of) => if told < of then Tell(m) else AllTold(m)
      case Fetching(_) => FetchFails(m)
      case Swapping(_, _) => ReadOld(m)
      case _ => Install(m, 0);
  }

  /** Whoever still holds a closed object can bring it back to life. */
  lemma {:induction false} HolderRevives(s: System, m: nat, o: nat) returns (run: seq<Step>)
    requires Invariant(s) && m < |s.monitors| && Writes(s.monitors[m].pc) == Some(o)
    ensures ValidRun(s, run) && o < |After(s, run).reg.objects|
    ensures After(s, run).reg.objects[o].state != Closed
    decreases Stage(s.monitors[m].pc), Untold(s.monitors[m].pc)
  {
    var pc := s.monitors[m].pc;
    var step := HolderMoves(s, m, o);
    StepKeepsInvariant(s, step);
    var rest := [];
    if pc.Noting? || pc.Telling? || pc.Swapping? {
      rest := HolderRevives(Do(s, step), m, o);
    }
    run := [step] + rest;
    assert run[1..] == rest;
  }

  /** Closing an object is final exactly when no monitor holds a pointer it is
      going to write through; CloseConnection does not wait for that. */
  lemma ClosedIsFinalIff(s: System, o: nat)
    requires Invariant(s) && o < |s.reg.objects|
    requires s.reg.objects[o].state == Closed && !s.reg.Registered(o)
    ensures StaysClosed(s, o) <==> forall m :: 0 <= m < |s.monitors| ==> Writes(s.monitors[m].pc) != Some(o)
  {
    if m :| 0 <= m < |s.monitors| && Writes(s.monitors[m].pc) == Some(o) {
      var run := HolderRevives(s, m, o);
    } else {
      assert Untouched(s, o);
      forall run | ValidRun(s, run)
        ensures o < |After(s, run).reg.objects| && After(s, run).reg.objects[o].state == Closed
      {
        UntouchedStaysClosed(s, run, o);
      }
    }
  }
}
