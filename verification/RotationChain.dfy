/** Completed events of one connection form a chain of certificates as long as
    its rotations do not overlap; re-using a connection id is what makes them
    overlap. */
module RotationChain {
  import opened Common
  import opened Connections
  import opened RotationProtocol
  import opened ObserverTrace

  ghost predicate NonOverlapping(s: System) {
    forall m, n :: 0 <= m < n < |s.monitors| && Working(s.monitors[m].pc) && Working(s.monitors[n].pc) ==>
                     s.monitors[m].pc.job.obj != s.monitors[n].pc.job.obj
  }

  ghost predicate NeverOverlaps(s: System, run: seq<Step>)
    requires Invariant(s) && ValidRun(s, run)
    decreases |run|
  {
    NonOverlapping(s) && (run != [] ==> (StepKeepsInvariant(s, run[0]); NeverOverlaps(Do(s, run[0]), run[1..])))
  }

  ghost function CompletionOf(i: nat, o: nat): Event -> bool {
    (e: Event) => e.observer == i && e.job.obj == o && e.note.OnCompleted?
  }

  /** The Completed events that observer `i` received about object `o`. */
  ghost function Completions(log: seq<Event>, i: nat, o: nat): (c: seq<Event>)
    ensures forall k :: 0 <= k < |c| ==>
            c[k].note.OnCompleted? && c[k] in log && c[k].observer == i && c[k].job.obj == o
  {
    SelectHolds(log, CompletionOf(i, o));
    Select(log, CompletionOf(i, o))
  }

  lemma {:induction false} SelectHolds(log: seq<Event>, p: Event -> bool)
    ensures forall k :: 0 <= k < |Select(log, p)| ==> p(Select(log, p)[k]) && Select(log, p)[k] in log
  {
    if log != [] {
      SelectHolds(log[..|log| - 1], p);
    }
  }

  lemma {:induction false} SelectNone(log: seq<Event>, p: Event -> bool)
    requires forall e :: e in log ==> !p(e)
    ensures Select(log, p) == []
  {
    if log != [] {
      SelectNone(log[..|log| - 1], p);
    }
  }

  ghost predicate Linked(c: seq<Event>)
    requires forall k :: 0 <= k < |c| ==> c[k].note.OnCompleted?
  {
    forall k :: 0 < k < |c| ==> c[k].note.before == Some(c[k - 1].note.after)
  }

  /** A completion of object `o` that observer `i` has yet to hear. */
  ghost predicate Pending(pc: Pc, i: nat, o: nat) {
    && (pc.Noting? || pc.Telling?) && pc.note.OnCompleted? && pc.job.obj == o
    && (pc.Telling? ==> pc.told <= i)
  }

  ghost predicate MonitorFits(s: System, pc: Pc, i: nat, o: nat, c: seq<Event>)
    requires o < |s.reg.objects|
  {
    && (pc.Updating? && pc.job.obj == o ==> pc.before == s.reg.objects[o].cert)
    && (Pending(pc, i, o) ==>
          && s.reg.objects[o].cert == Some(pc.note.after)
          && (c != [] && c[|c| - 1].note.OnCompleted? ==>
                pc.note.before == Some(c[|c| - 1].note.after) && (pc.Telling? ==> i < pc.of)))
  }

  ghost predicate InScope(s: System) {
    forall e :: e in s.log ==> e.observer < s.observers && e.job.obj < |s.reg.objects|
  }

  ghost predicate Chained(s: System, i: nat, o: nat) {
    var c := Completions(s.log, i, o);
    && Linked(c)
    && (o < |s.reg.objects| ==>
          && (forall m :: 0 <= m < |s.monitors| ==> MonitorFits(s, s.monitors[m].pc, i, o, c))
          && (c != [] && (forall m :: 0 <= m < |s.monitors| ==> !Pending(s.monitors[m].pc, i, o)) ==>
                s.reg.objects[o].cert == Some(c[|c| - 1].note.after)))
  }

  lemma StepKeepsInScope(s: System, step: Step)
    requires Invariant(s) && Enabled(s, step) && InScope(s)
    ensures InScope(Do(s, step))
  {
    assert step.Tell? ==> Bounded(s, s.monitors[step.m].pc);
  }

  lemma {:induction false} ReachableInScope(s: System, run: seq<Step>)
    requires Invariant(s) && ValidRun(s, run) && InScope(s)
    ensures InScope(After(s, run))
    decreases |run|
  {
    if run != [] {
      StepKeepsInvariant(s, run[0]);
      StepKeepsInScope(s, run[0]);
      ReachableInScope(Do(s, run[0]), run[1..]);
    }
  }

  lemma CompletionsGrow(s: System, step: Step, i: nat, o: nat)
    requires WellFormed(s) && Enabled(s, step)
    ensures Completions(Do(s, step).log, i, o) == Completions(s.log, i, o) +
            if step.Tell? && Pending(s.monitors[step.m].pc, i, o) && s.monitors[step.m].pc.told == i
            then [Event(i, s.monitors[step.m].pc.job, s.monitors[step.m].pc.note)] else []
  {
    if step.Tell? {
      SelectAppend(s.log, Do(s, step).log[|s.log|], CompletionOf(i, o));
    }
  }

  predicate WorksOnObject(pc: Pc, o: nat) {
    Working(pc) && pc.job.obj == o
  }

  /** Rotations of this one object do not overlap. */
  ghost predicate AloneOn(s: System, o: nat) {
    forall m, n :: 0 <= m < n < |s.monitors| ==>
        !(WorksOnObject(s.monitors[m].pc, o) && WorksOnObject(s.monitors[n].pc, o))
  }

  /** The other monitors are not working on the object of a working monitor. */
  lemma OthersElsewhere(s: System, m: nat, o: nat)
    requires AloneOn(s, o) && m < |s.monitors| && WorksOnObject(s.monitors[m].pc, o)
    ensures forall n :: 0 <= n < |s.monitors| && n != m ==> !WorksOnObject(s.monitors[n].pc, o)
  {
    forall n | 0 <= n < |s.monitors| && n != m ensures !WorksOnObject(s.monitors[n].pc, o) {
      assert m < n || n < m;
    }
  }

  /** The certificate of `o` is the last one observer `i` heard of, unless its
      monitor still has news for `i`. */
  ghost predicate UpToDate(s: System, pc: Pc, i: nat, o: nat, c: seq<Event>)
    requires o < |s.reg.objects|
  {
    c != [] && !Pending(pc, i, o) && c[|c| - 1].note.OnCompleted? ==>
      s.reg.objects[o].cert == Some(c[|c| - 1].note.after)
  }

  lemma TellingKeepsLinked(s: System, step: Step, i: nat, o: nat)
    requires WellFormed(s) && Enabled(s, step) && step.Tell? && o < |s.reg.objects|
    requires s.monitors[step.m].pc.job.obj == o
    requires Linked(Completions(s.log, i, o)) && MonitorFits(s, s.monitors[step.m].pc, i, o, Completions(s.log, i, o))
    ensures Linked(Completions(Do(s, step).log, i, o))
  {
    CompletionsGrow(s, step, i, o);
  }

  /** A step of a monitor busy with `o`, seen from that monitor alone. */
  lemma {:induction false} WorkerAdvances(s: System, step: Step, i: nat, o: nat)
    requires WellFormed(s) && Enabled(s, step) && ByMonitor(step) && o < |s.reg.objects|
    requires Working(s.monitors[step.m].pc) && s.monitors[step.m].pc.job.obj == o
    requires var c := Completions(s.log, i, o); var p := s.monitors[step.m].pc;
      && Linked(c) && MonitorFits(s, p, i, o, c) && UpToDate(s, p, i, o, c)
      && (c != [] ==> i < s.observers)
    ensures var t := Do(s, step); var c := Completions(t.log, i, o); var q := t.monitors[step.m].pc;
      && Linked(c) && MonitorFits(t, q, i, o, c) && UpToDate(t, q, i, o, c)
  {
    CompletionsGrow(s, step, i, o);
    var p := s.monitors[step.m].pc;
    assert Bounded(s, p);
    if step.Tell? {
      TellingKeepsLinked(s, step, i, o);
      if !(Pending(p, i, o) && p.told == i) {
        assert Completions(Do(s, step).log, i, o) == Completions(s.log, i, o);
      }
    } else {
      assert Completions(Do(s, step).log, i, o) == Completions(s.log, i, o);
    }
  }

  lemma WorkerKeepsChained(s: System, step: Step, i: nat, o: nat)
    requires Invariant(s) && Enabled(s, step) && ByMonitor(step) && AloneOn(s, o)
    requires o < |s.reg.objects| && Chained(s, i, o) && InScope(s)
    requires Working(s.monitors[step.m].pc) && s.monitors[step.m].pc.job.obj == o
    ensures Chained(Do(s, step), i, o)
  {
    var t, m, c := Do(s, step), step.m, Completions(s.log, i, o);
    OthersElsewhere(s, m, o);
    assert forall n :: 0 <= n < |s.monitors| && n != m ==> !Pending(s.monitors[n].pc, i, o);
    assert MonitorFits(s, s.monitors[m].pc, i, o, c);
    assert c != [] ==> c[0] in s.log;
    WorkerAdvances(s, step, i, o);
    forall n | 0 <= n < |t.monitors|
      ensures MonitorFits(t, t.monitors[n].pc, i, o, Completions(t.log, i, o))
    {
      assert n != m ==> t.monitors[n] == s.monitors[n];
    }
  }

  /** Any other step leaves the certificate and the completions of `o` alone. */
  lemma {:induction false} BystanderLeavesObject(s: System, step: Step, i: nat, o: nat)
    requires WellFormed(s) && Enabled(s, step) && o < |s.reg.objects|
    requires ByMonitor(step) && Working(s.monitors[step.m].pc) ==> s.monitors[step.m].pc.job.obj != o
    ensures Do(s, step).reg.objects[o].cert == s.reg.objects[o].cert
    ensures Completions(Do(s, step).log, i, o) == Completions(s.log, i, o)
  {
    CompletionsGrow(s, step, i, o);
  }

  ghost predicate Concerns(pc: Pc, i: nat, o: nat) {
    (pc.Updating? && pc.job.obj == o) || Pending(pc, i, o)
  }

  /** And the places of monitors that concern `o`. */
  lemma {:induction false} BystanderLeavesPlaces(s: System, step: Step, i: nat, o: nat, n: nat)
    requires WellFormed(s) && Enabled(s, step) && n < |Do(s, step).monitors|
    requires ByMonitor(step) && Working(s.monitors[step.m].pc) ==> s.monitors[step.m].pc.job.obj != o
    ensures Concerns(Do(s, step).monitors[n].pc, i, o) ==>
            n < |s.monitors| && Do(s, step).monitors[n].pc == s.monitors[n].pc
    ensures n < |s.monitors| && Pending(s.monitors[n].pc, i, o) ==> Do(s, step).monitors[n].pc == s.monitors[n].pc
  {
  }

  lemma BystanderKeepsChained(s: System, step: Step, i: nat, o: nat)
    requires Invariant(s) && Enabled(s, step) && o < |s.reg.objects| && Chained(s, i, o)
    requires ByMonitor(step) && Working(s.monitors[step.m].pc) ==> s.monitors[step.m].pc.job.obj != o
    ensures Chained(Do(s, step), i, o)
  {
    var t, c := Do(s, step), Completions(s.log, i, o);
    BystanderLeavesObject(s, step, i, o);
    forall n | 0 <= n < |t.monitors| ensures MonitorFits(t, t.monitors[n].pc, i, o, c) {
      BystanderLeavesPlaces(s, step, i, o, n);
      assert n < |s.monitors| ==> MonitorFits(s, s.monitors[n].pc, i, o, c);
    }
    if forall n :: 0 <= n < |t.monitors| ==> !Pending(t.monitors[n].pc, i, o) {
      forall n | 0 <= n < |s.monitors| ensures !Pending(s.monitors[n].pc, i, o) {
        BystanderLeavesPlaces(s, step, i, o, n);
      }
    }
  }

  lemma StepKeepsChained(s: System, step: Step, i: nat, o: nat)
    requires Invariant(s) && Enabled(s, step) && AloneOn(s, o) && InScope(s)
    requires Chained(s, i, o)
    ensures Chained(Do(s, step), i, o)
  {
    var t := Do(s, step);
    if o < |s.reg.objects| {
      if ByMonitor(step) && Working(s.monitors[step.m].pc) && s.monitors[step.m].pc.job.obj == o {
        WorkerKeepsChained(s, step, i, o);
      } else {
        BystanderKeepsChained(s, step, i, o);
      }
    } else {
      CompletionsGrow(s, step, i, o);
      var c := Completions(s.log, i, o);
      assert c != [] ==> c[0] in s.log;
      forall n | 0 <= n < |t.monitors| && o < |t.reg.objects| ensures MonitorFits(t, t.monitors[n].pc, i, o, c) {
        assert n < |s.monitors| ==> Bounded(s, s.monitors[n].pc);
      }
    }
  }

  lemma {:induction false} RunKeepsChained(s: System, run: seq<Step>, i: nat, o: nat)
    requires Invariant(s) && ValidRun(s, run) && NeverOverlaps(s, run) && InScope(s) && Chained(s, i, o)
    ensures Chained(After(s, run), i, o)
    decreases |run|
  {
    if run != [] {
      StepKeepsInvariant(s, run[0]);
      StepKeepsInScope(s, run[0]);
      assert AloneOn(s, o);
      StepKeepsChained(s, run[0], i, o);
      RunKeepsChained(Do(s, run[0]), run[1..], i, o);
    }
  }

  // ---- Who can reach an object -------------------------------------------------

  ghost function ObjectOf(pc: Pc): Option<nat> {
    if pc.Checking? || pc.Deciding? || pc.Holding? then Some(pc.obj)
    else if Working(pc) then Some(pc.job.obj)
    else None
  }

  /** The monitor holds the object or would find it under its id. */
  ghost predicate Reaches(s: System, m: nat, o: nat)
    requires m < |s.monitors|
  {
    var monitor := s.monitors[m];
    ObjectOf(monitor.pc) == Some(o) || (monitor.id in s.reg.connections && s.reg.connections[monitor.id] == o)
  }

  ghost predicate OneReaches(s: System, o: nat) {
    forall m: nat, n: nat :: m < n < |s.monitors| ==> !(Reaches(s, m, o) && Reaches(s, n, o))
  }

  /** Nobody comes within reach of an object that is already there. */
  lemma {:induction false} ReachOnlyShrinks(s: System, step: Step, m: nat, o: nat)
    requires Invariant(s) && Enabled(s, step) && o < |s.reg.objects| && m < |Do(s, step).monitors|
    requires Reaches(Do(s, step), m, o)
    ensures m < |s.monitors| && Reaches(s, m, o)
  {
  }

  lemma StepKeepsOneReaches(s: System, step: Step, o: nat)
    requires Invariant(s) && Enabled(s, step) && o < |s.reg.objects| && OneReaches(s, o)
    ensures OneReaches(Do(s, step), o)
  {
    var t := Do(s, step);
    forall m: nat, n: nat | m < n < |t.monitors| ensures !(Reaches(t, m, o) && Reaches(t, n, o)) {
      if Reaches(t, m, o) && Reaches(t, n, o) {
        ReachOnlyShrinks(s, step, m, o);
        ReachOnlyShrinks(s, step, n, o);
      }
    }
  }

  lemma {:induction false} OneReachesChains(s: System, run: seq<Step>, i: nat, o: nat)
    requires Invariant(s) && ValidRun(s, run) && InScope(s) && Chained(s, i, o)
    requires o < |s.reg.objects| && OneReaches(s, o)
    ensures Chained(After(s, run), i, o)
    decreases |run|
  {
    if run != [] {
      StepKeepsInvariant(s, run[0]);
      StepKeepsInScope(s, run[0]);
      assert forall m: nat :: m < |s.monitors| && WorksOnObject(s.monitors[m].pc, o) ==> Reaches(s, m, o);
      StepKeepsChained(s, run[0], i, o);
      StepKeepsOneReaches(s, run[0], o);
      OneReachesChains(Do(s, run[0]), run[1..], i, o);
    }
  }

  // ---- A newly established connection --------------------------------------------

  ghost predicate OneMonitorOf(s: System, id: string) {
    forall m, n :: 0 <= m < n < |s.monitors| ==> !(s.monitors[m].id == id && s.monitors[n].id == id)
  }

  /** The object just established is in reach of the monitors of its id and of no
      other, and nobody has heard of it. */
  lemma EstablishedIsFresh(s: System, id: string, local: Identity, remote: Identity, cert: Option<Certificate>,
                           now: Time, i: nat)
    requires Invariant(s) && InScope(s)
    ensures var step := Establish(id, local, remote, cert, now); var t, o := Do(s, step), |s.reg.objects|;
      && Invariant(t) && InScope(t) && o < |t.reg.objects|
      && Completions(t.log, i, o) == [] && Chained(t, i, o)
      && (forall m: nat :: m < |t.monitors| ==> (Reaches(t, m, o) <==> t.monitors[m].id == id))
      && (forall m: nat :: m < |t.monitors| && ObjectOf(t.monitors[m].pc).Some? ==>
          ObjectOf(t.monitors[m].pc).value < o)
  {
    var step := Establish(id, local, remote, cert, now);
    StepKeepsInvariant(s, step);
    StepKeepsInScope(s, step);
    var t, o := Do(s, step), |s.reg.objects|;
    SelectNone(s.log, CompletionOf(i, o));
    forall m: nat | m < |t.monitors| ensures ObjectOf(t.monitors[m].pc).Some? ==> ObjectOf(t.monitors[m].pc).value < o {
      assert m < |s.monitors| ==> Bounded(s, s.monitors[m].pc);
    }
  }

  // ---- Distinct ids never overlap -------------------------------------------

  /** A monitor only ever touches objects carrying its own id. */
  ghost predicate OwnObjects(s: System)
    requires WellFormed(s)
  {
    forall m :: 0 <= m < |s.monitors| ==> OwnObject(s, m)
  }

  ghost predicate DistinctIds(s: System) {
    forall m, n :: 0 <= m < n < |s.monitors| ==> s.monitors[m].id != s.monitors[n].id
  }

  ghost predicate OwnObject(s: System, m: nat)
    requires WellFormed(s) && m < |s.monitors|
  {
    ObjectOf(s.monitors[m].pc).Some? ==>
      s.reg.objects[ObjectOf(s.monitors[m].pc).value].id == s.monitors[m].id
  }

  lemma {:induction false} StepKeepsOwnObject(s: System, step: Step, m: nat)
    requires Invariant(s) && Enabled(s, step) && WellFormed(Do(s, step)) && m < |Do(s, step).monitors|
    requires m < |s.monitors| ==> OwnObject(s, m)
    ensures OwnObject(Do(s, step), m)
  {
  }

  lemma StepKeepsOwnObjects(s: System, step: Step)
    requires Invariant(s) && Enabled(s, step) && OwnObjects(s)
    ensures Invariant(Do(s, step)) && OwnObjects(Do(s, step))
  {
    StepKeepsInvariant(s, step);
    forall m | 0 <= m < |Do(s, step).monitors| ensures OwnObject(Do(s, step), m) {
      StepKeepsOwnObject(s, step, m);
    }
  }

  lemma {:induction false} MonitorsOnlyAppend(s: System, run: seq<Step>)
    requires Invariant(s) && ValidRun(s, run)
    ensures |s.monitors| <= |After(s, run).monitors|
    ensures forall m :: 0 <= m < |s.monitors| ==> After(s, run).monitors[m].id == s.monitors[m].id
    decreases |run|
  {
    if run != [] {
      StepKeepsInvariant(s, run[0]);
      var t := Do(s, run[0]);
      assert forall m :: 0 <= m < |s.monitors| ==> t.monitors[m].id == s.monitors[m].id;
      MonitorsOnlyAppend(t, run[1..]);
    }
  }

  lemma {:induction false} DistinctIdsNeverOverlap(s: System, run: seq<Step>)
    requires Invariant(s) && ValidRun(s, run) && OwnObjects(s) && DistinctIds(After(s, run))
    ensures NeverOverlaps(s, run)
    decreases |run|
  {
    MonitorsOnlyAppend(s, run);
    assert NonOverlapping(s) by {
      forall m, n | 0 <= m < n < |s.monitors| && Working(s.monitors[m].pc) && Working(s.monitors[n].pc)
        ensures s.monitors[m].pc.job.obj != s.monitors[n].pc.job.obj
      {
        assert OwnObject(s, m) && OwnObject(s, n);
      }
    }
    if run != [] {
      StepKeepsOwnObjects(s, run[0]);
      DistinctIdsNeverOverlap(Do(s, run[0]), run[1..]);
    }
  }

  /** While rotations of a connection do not overlap, what an observer hears
      about it is a chain: each completion starts from the previous one's
      certificate. */
  lemma CompletionsAreChained(run: seq<Step>, i: nat, o: nat)
    requires ValidRun(INIT, run) && NeverOverlaps(INIT, run)
    ensures Linked(Completions(After(INIT, run).log, i, o))
  {
    RunKeepsChained(INIT, run, i, o);
  }

  /** In particular when no connection id is established twice. */
  lemma CompletionsAreChainedForFreshIds(run: seq<Step>, i: nat, o: nat)
    requires ValidRun(INIT, run) && DistinctIds(After(INIT, run))
    ensures Linked(Completions(After(INIT, run).log, i, o))
  {
    DistinctIdsNeverOverlap(INIT, run);
    CompletionsAreChained(run, i, o);
  }
}
