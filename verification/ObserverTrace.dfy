/** What observers of rotations hear, in every run of the rotation protocol. */
module ObserverTrace {
  import opened Common
  import opened Connections
  import opened RotationProtocol

  ghost function Select(log: seq<Event>, p: Event -> bool): seq<Event> {
    if log == [] then []
    else Select(log[..|log| - 1], p) + if p(log[|log| - 1]) then [log[|log| - 1]] else []
  }

  lemma SelectAppend(log: seq<Event>, e: Event, p: Event -> bool)
    ensures Select(log + [e], p) == Select(log, p) + if p(e) then [e] else []
  {
    assert (log + [e])[..|log|] == log;
  }

  // ---- One rotation, one observer ---------------------------------------

  ghost function About(i: nat, r: nat): Event -> bool {
    (e: Event) => e.observer == i && e.job.rotation == r
  }

  ghost predicate WorksOn(pc: Pc, r: nat) {
    Working(pc) && pc.job.rotation == r
  }

  /** What observer `i` has been told by a monitor at `pc` about its rotation. */
  ghost function Heard(pc: Pc, i: nat): seq<Event>
    requires Working(pc)
  {
    var started := [Event(i, pc.job, OnStarted)];
    if pc.Noting? then (if pc.note.OnStarted? then [] else started)
    else if pc.Telling? then
      (if pc.note.OnStarted? then [] else started) + (if i < pc.told then [Event(i, pc.job, pc.note)] else [])
    else started
  }

  /** Started, then exactly one of Completed and Failed. */
  ghost predicate Whole(heard: seq<Event>) {
    |heard| == 2 && heard[0].note.OnStarted? && !heard[1].note.OnStarted?
  }

  ghost predicate TrackedPc(s: System, pc: Pc) {
    && (Working(pc) ==> pc.job.rotation < |s.rotations|)
    && (pc.Telling? ==> s.rotations[pc.job.rotation] <= pc.of)
  }

  ghost predicate SameRotation(p: Pc, q: Pc) {
    Working(p) && Working(q) && p.job.rotation == q.job.rotation
  }

  ghost predicate Tracked(s: System) {
    && (forall r :: 0 <= r < |s.rotations| ==> s.rotations[r] <= s.observers)
    && (forall e :: e in s.log ==> e.job.rotation < |s.rotations|)
    && (forall m :: 0 <= m < |s.monitors| ==> TrackedPc(s, s.monitors[m].pc))
    && (forall m, n :: 0 <= m < n < |s.monitors| ==> !SameRotation(s.monitors[m].pc, s.monitors[n].pc))
  }

  ghost predicate Traced(s: System, i: nat, r: nat)
    requires Tracked(s) && r < |s.rotations|
  {
    i < s.rotations[r] ==>
      && (forall m :: 0 <= m < |s.monitors| && WorksOn(s.monitors[m].pc, r) ==>
            Select(s.log, About(i, r)) == Heard(s.monitors[m].pc, i))
      && ((forall m :: 0 <= m < |s.monitors| ==> !WorksOn(s.monitors[m].pc, r)) ==>
            Whole(Select(s.log, About(i, r))))
  }

  lemma StepKeepsTrackedPc(s: System, step: Step, m: nat)
    requires Invariant(s) && Enabled(s, step) && Tracked(s) && m < |Do(s, step).monitors|
    ensures TrackedPc(Do(s, step), Do(s, step).monitors[m].pc)
  {
    assert m < |s.monitors| ==> TrackedPc(s, s.monitors[m].pc);
  }

  lemma StepKeepsRotationsApart(s: System, step: Step, m: nat, n: nat)
    requires Invariant(s) && Enabled(s, step) && Tracked(s) && m < n < |Do(s, step).monitors|
    ensures !SameRotation(Do(s, step).monitors[m].pc, Do(s, step).monitors[n].pc)
  {
    if n < |s.monitors| {
      assert TrackedPc(s, s.monitors[m].pc) && TrackedPc(s, s.monitors[n].pc);
      assert !SameRotation(s.monitors[m].pc, s.monitors[n].pc);
    }
  }

  lemma {:induction false} StepKeepsTracked(s: System, step: Step)
    requires Invariant(s) && Enabled(s, step) && Tracked(s)
    ensures Tracked(Do(s, step))
  {
    var t := Do(s, step);
    assert step.Tell? ==> TrackedPc(s, s.monitors[step.m].pc);
    assert |t.rotations| >= |s.rotations|;
    forall m | 0 <= m < |t.monitors| ensures TrackedPc(t, t.monitors[m].pc) {
      StepKeepsTrackedPc(s, step, m);
    }
    forall m, n | 0 <= m < n < |t.monitors| ensures !SameRotation(t.monitors[m].pc, t.monitors[n].pc) {
      StepKeepsRotationsApart(s, step, m, n);
    }
  }

  lemma {:induction false} SelectFresh(log: seq<Event>, i: nat, r: nat)
    requires forall e :: e in log ==> e.job.rotation != r
    ensures Select(log, About(i, r)) == []
  {
    if log != [] {
      SelectFresh(log[..|log| - 1], i, r);
    }
  }

  lemma OnlyTellingLogs(s: System, step: Step, i: nat, r: nat)
    requires WellFormed(s) && Enabled(s, step)
    ensures Select(Do(s, step).log, About(i, r)) ==
            Select(s.log, About(i, r)) +
            if step.Tell? && WorksOn(s.monitors[step.m].pc, r) && s.monitors[step.m].pc.told == i
            then [Event(i, s.monitors[step.m].pc.job, s.monitors[step.m].pc.note)] else []
  {
    if step.Tell? {
      SelectAppend(s.log, Do(s, step).log[|s.log|], About(i, r));
    }
  }

  /** What a monitor at work does to what observer `i` should have heard. */
  lemma {:induction false} HeardMoves(s: System, step: Step, i: nat)
    requires WellFormed(s) && Enabled(s, step) && ByMonitor(step) && Working(s.monitors[step.m].pc)
    requires TrackedPc(s, s.monitors[step.m].pc) && i < s.rotations[s.monitors[step.m].pc.job.rotation]
    ensures var p := s.monitors[step.m].pc; var q := Do(s, step).monitors[step.m].pc;
      var heard := if step.Tell? && p.told == i then Heard(p, i) + [Event(i, p.job, p.note)] else Heard(p, i);
      if Working(q) then q.job == p.job && heard == Heard(q, i) else Whole(heard)
  {
  }

  /** The monitor of rotation `r` moves: what was heard stays what its place says. */
  lemma {:induction false} HeardFollowsMonitor(s: System, step: Step, i: nat, r: nat)
    requires WellFormed(s) && Enabled(s, step) && ByMonitor(step)
    requires r < |s.rotations| && i < s.rotations[r]
    requires WorksOn(s.monitors[step.m].pc, r) && TrackedPc(s, s.monitors[step.m].pc)
    requires Select(s.log, About(i, r)) == Heard(s.monitors[step.m].pc, i)
    ensures var q := Do(s, step).monitors[step.m].pc; var heard := Select(Do(s, step).log, About(i, r));
      if Working(q) then WorksOn(q, r) && heard == Heard(q, i) else Whole(heard)
  {
    OnlyTellingLogs(s, step, i, r);
    HeardMoves(s, step, i);
  }

  /** Only the monitor of `r` moves, and after it nobody else works on `r`. */
  lemma WorkersOf(s: System, step: Step, r: nat)
    requires WellFormed(s) && Enabled(s, step) && ByMonitor(step) && Tracked(s) && r < |s.rotations|
    ensures forall n :: 0 <= n < |s.monitors| && n != step.m ==> Do(s, step).monitors[n] == s.monitors[n]
    ensures WorksOn(s.monitors[step.m].pc, r) ==>
              forall n :: 0 <= n < |s.monitors| && n != step.m ==> !WorksOn(s.monitors[n].pc, r)
    ensures !WorksOn(s.monitors[step.m].pc, r) ==> !WorksOn(Do(s, step).monitors[step.m].pc, r)
  {
    var m := step.m;
    forall n | WorksOn(s.monitors[m].pc, r) && 0 <= n < |s.monitors| && n != m ensures !WorksOn(s.monitors[n].pc, r) {
      assert !SameRotation(s.monitors[if m < n then m else n].pc, s.monitors[if m < n then n else m].pc);
    }
  }

  lemma TracedByMonitor(s: System, step: Step, i: nat, r: nat)
    requires Invariant(s) && Enabled(s, step) && Tracked(s) && ByMonitor(step)
    requires r < |s.rotations| && i < s.rotations[r] && Traced(s, i, r) && Tracked(Do(s, step))
    ensures Traced(Do(s, step), i, r)
  {
    var t, m := Do(s, step), step.m;
    WorkersOf(s, step, r);
    if WorksOn(s.monitors[m].pc, r) {
      HeardFollowsMonitor(s, step, i, r);
    } else {
      OnlyTellingLogs(s, step, i, r);
      if forall n :: 0 <= n < |t.monitors| ==> !WorksOn(t.monitors[n].pc, r) {
        assert forall n :: 0 <= n < |s.monitors| ==> !WorksOn(s.monitors[n].pc, r);
      }
    }
  }

  lemma StepKeepsTraced(s: System, step: Step, i: nat, r: nat)
    requires Invariant(s) && Enabled(s, step) && Tracked(s)
    requires r < |s.rotations| ==> Traced(s, i, r)
    requires Tracked(Do(s, step)) && r < |Do(s, step).rotations|
    ensures Traced(Do(s, step), i, r)
  {
    var t := Do(s, step);
    if r == |s.rotations| {
      SelectFresh(s.log, i, r);
      assert WorksOn(t.monitors[step.m].pc, r);
      forall n | 0 <= n < |s.monitors| && n != step.m ensures !WorksOn(t.monitors[n].pc, r) {
        assert TrackedPc(s, s.monitors[n].pc);
      }
    } else if i < s.rotations[r] {
      if ByMonitor(step) {
        TracedByMonitor(s, step, i, r);
      } else {
        assert forall n :: 0 <= n < |s.monitors| ==> t.monitors[n] == s.monitors[n];
        if forall n :: 0 <= n < |t.monitors| ==> !WorksOn(t.monitors[n].pc, r) {
          assert forall n :: 0 <= n < |s.monitors| ==> !WorksOn(t.monitors[n].pc, r);
        }
      }
    }
  }

  lemma {:induction false} RunKeepsTraced(s: System, run: seq<Step>, i: nat)
    requires Invariant(s) && ValidRun(s, run) && Tracked(s)
    requires forall r :: 0 <= r < |s.rotations| ==> Traced(s, i, r)
    ensures Tracked(After(s, run))
    ensures forall r :: 0 <= r < |After(s, run).rotations| ==> Traced(After(s, run), i, r)
    decreases |run|
  {
    if run != [] {
      StepKeepsInvariant(s, run[0]);
      StepKeepsTracked(s, run[0]);
      var t := Do(s, run[0]);
      forall r | 0 <= r < |t.rotations| ensures Traced(t, i, r) {
        StepKeepsTraced(s, run[0], i, r);
      }
      RunKeepsTraced(t, run[1..], i);
    }
  }

  lemma TracedMeans(s: System, i: nat, r: nat)
    requires Tracked(s) && r < |s.rotations| && i < s.rotations[r] && Traced(s, i, r)
    ensures var heard := Select(s.log, About(i, r));
      && |heard| <= 2
      && (|heard| >= 1 ==> heard[0].note.OnStarted?)
      && (|heard| == 2 ==> !heard[1].note.OnStarted?)
      && (|heard| < 2 ==> exists m :: 0 <= m < |s.monitors| && WorksOn(s.monitors[m].pc, r))
  {
    if m :| 0 <= m < |s.monitors| && WorksOn(s.monitors[m].pc, r) {
      assert Select(s.log, About(i, r)) == Heard(s.monitors[m].pc, i);
    } else {
      assert Whole(Select(s.log, About(i, r)));
    }
  }

  /** An observer that was there when a rotation started hears Started once and
      then at most one of Completed and Failed; while it has not heard the end,
      the rotation's monitor is still at work. */
  lemma {:induction false} ObserverHearsEachRotation(run: seq<Step>, i: nat, r: nat)
    requires ValidRun(INIT, run)
    requires r < |After(INIT, run).rotations| && i < After(INIT, run).rotations[r]
    ensures var t := After(INIT, run); var heard := Select(t.log, About(i, r));
      && |heard| <= 2
      && (|heard| >= 1 ==> heard[0].note.OnStarted?)
      && (|heard| == 2 ==> !heard[1].note.OnStarted?)
      && (|heard| < 2 ==> exists m :: 0 <= m < |t.monitors| && WorksOn(t.monitors[m].pc, r))
  {
    RunKeepsTraced(INIT, run, i);
    TracedMeans(After(INIT, run), i, r);
  }

  // ---- Counting -------------------------------------------------------------

  ghost function Count(log: seq<Event>, p: Event -> bool): nat {
    |Select(log, p)|
  }

  /** Observer `i` was there when rotation `r` started. */
  ghost predicate Known(rotations: seq<nat>, r: nat, i: nat) {
    r < |rotations| && i < rotations[r]
  }

  ghost function StartedTo(rotations: seq<nat>, i: nat): Event -> bool {
    (e: Event) => e.observer == i && e.note.OnStarted? && Known(rotations, e.job.rotation, i)
  }

  ghost function CompletedTo(rotations: seq<nat>, i: nat): Event -> bool {
    (e: Event) => e.observer == i && e.note.OnCompleted? && Known(rotations, e.job.rotation, i)
  }

  ghost function FailedTo(rotations: seq<nat>, i: nat): Event -> bool {
    (e: Event) => e.observer == i && e.note.OnFailed? && Known(rotations, e.job.rotation, i)
  }

  /** Observer `i` knows the monitor's rotation has started, and not yet that it ended. */
  ghost predicate OpenFor(rotations: seq<nat>, pc: Pc, i: nat) {
    Working(pc) && Known(rotations, pc.job.rotation, i) && |Heard(pc, i)| == 1
  }

  ghost function Open(rotations: seq<nat>, pc: Pc, i: nat): nat {
    if OpenFor(rotations, pc, i) then 1 else 0
  }

  ghost function OpenRotations(rotations: seq<nat>, monitors: seq<Monitor>, i: nat): nat {
    if monitors == [] then 0
    else OpenRotations(rotations, monitors[..|monitors| - 1], i) + Open(rotations, monitors[|monitors| - 1].pc, i)
  }

  lemma {:induction false} OpenRotationsUpdate(rotations: seq<nat>, monitors: seq<Monitor>, m: nat, x: Monitor, i: nat)
    requires m < |monitors|
    ensures OpenRotations(rotations, monitors[m := x], i) + Open(rotations, monitors[m].pc, i) ==
            OpenRotations(rotations, monitors, i) + Open(rotations, x.pc, i)
  {
    var last := |monitors| - 1;
    if m == last {
      assert monitors[m := x][..last] == monitors[..last];
    } else {
      assert monitors[m := x][..last] == monitors[..last][m := x];
      OpenRotationsUpdate(rotations, monitors[..last], m, x, i);
    }
  }

  /** For every observer, whenever it registered: of the rotations that started
      after that, Started = Completed + Failed + open. */
  ghost predicate Balanced(s: System, i: nat) {
    Count(s.log, StartedTo(s.rotations, i)) ==
    Count(s.log, CompletedTo(s.rotations, i)) + Count(s.log, FailedTo(s.rotations, i))
    + OpenRotations(s.rotations, s.monitors, i)
  }

  // A new rotation is about none of the old events and in none of the old places.

  lemma {:induction false} SameSelection(log: seq<Event>, p: Event -> bool, q: Event -> bool)
    requires forall e :: e in log ==> p(e) == q(e)
    ensures Select(log, p) == Select(log, q)
  {
    if log != [] {
      SameSelection(log[..|log| - 1], p, q);
    }
  }

  lemma {:induction false} SameOpen(rotations: seq<nat>, x: nat, monitors: seq<Monitor>, i: nat)
    requires forall m :: 0 <= m < |monitors| && Working(monitors[m].pc) ==> monitors[m].pc.job.rotation < |rotations|
    ensures OpenRotations(rotations + [x], monitors, i) == OpenRotations(rotations, monitors, i)
  {
    if monitors != [] {
      SameOpen(rotations, x, monitors[..|monitors| - 1], i);
    }
  }

  lemma CountsKeepOld(log: seq<Event>, rotations: seq<nat>, x: nat, i: nat)
    requires forall e :: e in log ==> e.job.rotation < |rotations|
    ensures Count(log, StartedTo(rotations + [x], i)) == Count(log, StartedTo(rotations, i))
    ensures Count(log, CompletedTo(rotations + [x], i)) == Count(log, CompletedTo(rotations, i))
    ensures Count(log, FailedTo(rotations + [x], i)) == Count(log, FailedTo(rotations, i))
  {
    SameSelection(log, StartedTo(rotations + [x], i), StartedTo(rotations, i));
    SameSelection(log, CompletedTo(rotations + [x], i), CompletedTo(rotations, i));
    SameSelection(log, FailedTo(rotations + [x], i), FailedTo(rotations, i));
  }

  lemma {:induction false} MoveChangesOpen(s: System, step: Step, i: nat)
    requires WellFormed(s) && Enabled(s, step) && ByMonitor(step) && TrackedPc(s, s.monitors[step.m].pc)
    requires !step.MarkRotating?
    ensures var p := s.monitors[step.m].pc; var q := Do(s, step).monitors[step.m].pc;
      var told := step.Tell? && p.told == i && Known(s.rotations, p.job.rotation, i);
      && Open(s.rotations, q, i) == (if told then (if p.note.OnStarted? then 1 else 0) else Open(s.rotations, p, i))
      && (told ==> Open(s.rotations, p, i) == if p.note.OnStarted? then 0 else 1)
  {
  }

  lemma AppendCounts(log: seq<Event>, e: Event, rotations: seq<nat>, i: nat)
    ensures var mine := e.observer == i && Known(rotations, e.job.rotation, i);
      && Count(log + [e], StartedTo(rotations, i)) ==
         Count(log, StartedTo(rotations, i)) + (if mine && e.note.OnStarted? then 1 else 0)
      && Count(log + [e], CompletedTo(rotations, i)) + Count(log + [e], FailedTo(rotations, i)) ==
         Count(log, CompletedTo(rotations, i)) + Count(log, FailedTo(rotations, i))
         + (if mine && !e.note.OnStarted? then 1 else 0)
  {
    SelectAppend(log, e, StartedTo(rotations, i));
    SelectAppend(log, e, CompletedTo(rotations, i));
    SelectAppend(log, e, FailedTo(rotations, i));
  }

  lemma MoveKeepsBalanced(s: System, step: Step, i: nat)
    requires Invariant(s) && Enabled(s, step) && Tracked(s) && Balanced(s, i) && ByMonitor(step) && !step.MarkRotating?
    ensures Balanced(Do(s, step), i)
  {
    var t := Do(s, step);
    assert TrackedPc(s, s.monitors[step.m].pc);
    MoveChangesOpen(s, step, i);
    OpenRotationsUpdate(s.rotations, s.monitors, step.m, t.monitors[step.m], i);
    assert t.monitors == s.monitors[step.m := t.monitors[step.m]];
    if step.Tell? {
      AppendCounts(s.log, t.log[|s.log|], s.rotations, i);
    }
  }

  lemma MarkKeepsBalanced(s: System, step: Step, i: nat)
    requires Invariant(s) && Enabled(s, step) && Tracked(s) && Balanced(s, i) && step.MarkRotating?
    ensures Balanced(Do(s, step), i)
  {
    var t := Do(s, step);
    forall m | 0 <= m < |s.monitors| && Working(s.monitors[m].pc)
      ensures s.monitors[m].pc.job.rotation < |s.rotations|
    {
      assert TrackedPc(s, s.monitors[m].pc);
    }
    CountsKeepOld(s.log, s.rotations, s.observers, i);
    SameOpen(s.rotations, s.observers, s.monitors, i);
    OpenRotationsUpdate(t.rotations, s.monitors, step.m, t.monitors[step.m], i);
  }

  lemma StepKeepsBalanced(s: System, step: Step, i: nat)
    requires Invariant(s) && Enabled(s, step) && Tracked(s) && Balanced(s, i)
    ensures Balanced(Do(s, step), i)
  {
    var t := Do(s, step);
    if step.MarkRotating? {
      MarkKeepsBalanced(s, step, i);
    } else if ByMonitor(step) {
      MoveKeepsBalanced(s, step, i);
    } else if |t.monitors| > |s.monitors| {
      assert t.monitors[..|t.monitors| - 1] == s.monitors;
    }
  }

  lemma {:induction false} RunKeepsBalanced(s: System, run: seq<Step>, i: nat)
    requires Invariant(s) && ValidRun(s, run) && Tracked(s) && Balanced(s, i)
    ensures Balanced(After(s, run), i)
    decreases |run|
  {
    if run != [] {
      StepKeepsInvariant(s, run[0]);
      StepKeepsTracked(s, run[0]);
      StepKeepsBalanced(s, run[0], i);
      RunKeepsBalanced(Do(s, run[0]), run[1..], i);
    }
  }

  /** At all times, for every observer, over the rotations that started after it
      registered. */
  lemma StartedAreCompletedFailedOrOpen(run: seq<Step>, i: nat)
    requires ValidRun(INIT, run)
    ensures var t := After(INIT, run);
      Count(t.log, StartedTo(t.rotations, i)) ==
      Count(t.log, CompletedTo(t.rotations, i)) + Count(t.log, FailedTo(t.rotations, i))
      + OpenRotations(t.rotations, t.monitors, i)
  {
    RunKeepsBalanced(INIT, run, i);
  }
}
