/** What the steps of one monitor add up to when no other goroutine moves. */
module UndisturbedRotation {
  import opened Common
  import opened Connections
  import opened RotationProtocol

  lemma {:induction false} RunsCompose(s: System, a: seq<Step>, b: seq<Step>)
    requires Invariant(s) && ValidRun(s, a) && ValidRun(After(s, a), b)
    ensures ValidRun(s, a + b) && After(s, a + b) == After(After(s, a), b)
    decreases |a|
  {
    if a == [] {
      assert a + b == b;
    } else {
      assert (a + b)[1..] == a[1..] + b;
      StepKeepsInvariant(s, a[0]);
      RunsCompose(Do(s, a[0]), a[1..], b);
    }
  }

  lemma OneStep(s: System, step: Step)
    requires Invariant(s) && Enabled(s, step)
    ensures ValidRun(s, [step]) && After(s, [step]) == Do(s, step)
  {
    StepKeepsInvariant(s, step);
    assert [step][1..] == [];
  }

  /** Only monitor `m` moves. */
  ghost predicate ByOnly(run: seq<Step>, m: nat) {
    forall k :: 0 <= k < |run| ==> ByMonitor(run[k]) && run[k].m == m
  }

  function Events(job: Job, note: Note, told: nat, of: nat): seq<Event>
    requires told <= of
  {
    seq(of - told, i requires 0 <= i < of - told => Event(told + i, job, note))
  }

  lemma EventsNext(job: Job, note: Note, told: nat, of: nat)
    requires told < of
    ensures [Event(told, job, note)] + Events(job, note, told + 1, of) == Events(job, note, told, of)
  {
  }

  lemma TellOne(s: System, m: nat)
    requires Invariant(s) && m < |s.monitors| && s.monitors[m].pc.Telling?
    ensures var pc := s.monitors[m].pc;
      && pc.told <= pc.of
      && (pc.told < pc.of ==>
            Enabled(s, Tell(m)) &&
            Do(s, Tell(m)) == Moved(s, m, pc.(told := pc.told + 1)).(log := s.log + [Event(pc.told, pc.job, pc.note)]))
  {
    assert Bounded(s, s.monitors[m].pc);
  }

  /** A notify function tells every observer it copied, in order. */
  lemma {:induction false} TellAll(s: System, m: nat) returns (run: seq<Step>)
    requires Invariant(s) && m < |s.monitors| && s.monitors[m].pc.Telling?
    ensures ValidRun(s, run) && ByOnly(run, m)
    ensures var pc := s.monitors[m].pc;
      pc.told <= pc.of &&
      After(s, run) == Moved(s, m, if pc.note.OnStarted? then Fetching(pc.job) else Idle).(
        log := s.log + Events(pc.job, pc.note, pc.told, pc.of))
    decreases s.monitors[m].pc.of - s.monitors[m].pc.told
  {
    var pc := s.monitors[m].pc;
    TellOne(s, m);
    if pc.told < pc.of {
      OneStep(s, Tell(m));
      StepKeepsInvariant(s, Tell(m));
      var rest := TellAll(Do(s, Tell(m)), m);
      RunsCompose(s, [Tell(m)], rest);
      run := [Tell(m)] + rest;
      EventsNext(pc.job, pc.note, pc.told, pc.of);
      assert (s.log + [Event(pc.told, pc.job, pc.note)]) + Events(pc.job, pc.note, pc.told + 1, pc.of)
          == s.log + ([Event(pc.told, pc.job, pc.note)] + Events(pc.job, pc.note, pc.told + 1, pc.of));
    } else {
      OneStep(s, AllTold(m));
      run := [AllTold(m)];
    }
  }

  /** A rotation from its notification on: copy the observers, then tell them. */
  lemma NotifyAll(s: System, m: nat) returns (run: seq<Step>)
    requires Invariant(s) && m < |s.monitors| && s.monitors[m].pc.Noting?
    ensures ValidRun(s, run) && ByOnly(run, m)
    ensures var pc := s.monitors[m].pc;
      After(s, run) == Moved(s, m, if pc.note.OnStarted? then Fetching(pc.job) else Idle).(
        log := s.log + Events(pc.job, pc.note, 0, s.observers))
  {
    OneStep(s, CopyObservers(m));
    var rest := TellAll(Do(s, CopyObservers(m)), m);
    RunsCompose(s, [CopyObservers(m)], rest);
    run := [CopyObservers(m)] + rest;
  }

  /** Fetch and swap, or give up. */
  lemma FinishFetch(s: System, m: nat, fetched: Option<Certificate>, now: Time) returns (run: seq<Step>)
    requires Invariant(s) && m < |s.monitors| && s.monitors[m].pc.Fetching?
    ensures ValidRun(s, run) && ByOnly(run, m)
    ensures var job := s.monitors[m].pc.job;
      && job.obj < |s.reg.objects|
      && After(s, run) ==
        if fetched.None? then Moved(s, m, Noting(job, OnFailed)).(reg := s.reg.SetState(job.obj, Failed))
        else Moved(s, m, Noting(job, OnCompleted(s.reg.objects[job.obj].cert, fetched.value))).(
          reg := s.reg.UpdateRotation(job.obj, fetched.value, now))
  {
    assert Bounded(s, s.monitors[m].pc);
    if fetched.None? {
      OneStep(s, FetchFails(m));
      run := [FetchFails(m)];
    } else {
      OneStep(s, FetchSucceeds(m, fetched.value));
      var t := After(s, [FetchSucceeds(m, fetched.value)]);
      OneStep(t, ReadOld(m));
      var u := After(t, [ReadOld(m)]);
      OneStep(u, Install(m, now));
      RunsCompose(t, [ReadOld(m)], [Install(m, now)]);
      run := [ReadOld(m)] + [Install(m, now)];
      RunsCompose(s, [FetchSucceeds(m, fetched.value)], run);
      run := [FetchSucceeds(m, fetched.value)] + run;
    }
  }

  ghost function Ending(before: Option<Certificate>, fetched: Option<Certificate>): Note {
    if fetched.None? then OnFailed else OnCompleted(before, fetched.value)
  }

  lemma Begin(s: System, m: nat) returns (run: seq<Step>)
    requires Invariant(s) && m < |s.monitors| && s.monitors[m].pc.Starting? && s.monitors[m].id in s.reg.connections
    ensures ValidRun(s, run) && ByOnly(run, m)
    ensures var o := s.reg.connections[s.monitors[m].id]; var job := Job(o, |s.rotations|);
      && o < |s.reg.objects|
      && After(s, run) == Moved(s, m, Fetching(job)).(
           reg := s.reg.SetState(o, Rotating), rotations := s.rotations + [s.observers],
           log := s.log + Events(job, OnStarted, 0, s.observers))
  {
    OneStep(s, LookUpAgain(m));
    OneStep(After(s, [LookUpAgain(m)]), MarkRotating(m));
    RunsCompose(s, [LookUpAgain(m)], [MarkRotating(m)]);
    run := [LookUpAgain(m)] + [MarkRotating(m)];
    var told := NotifyAll(After(s, run), m);
    RunsCompose(s, run, told);
    run := run + told;
  }

  lemma Finish(s: System, m: nat, fetched: Option<Certificate>, now: Time) returns (run: seq<Step>)
    requires Invariant(s) && m < |s.monitors| && s.monitors[m].pc.Fetching?
    ensures ValidRun(s, run) && ByOnly(run, m)
    ensures var job := s.monitors[m].pc.job;
      && job.obj < |s.reg.objects|
      && After(s, run) == Moved(s, m, Idle).(
           reg := if fetched.None? then s.reg.SetState(job.obj, Failed)
               else s.reg.UpdateRotation(job.obj, fetched.value, now),
           log := s.log + Events(job, Ending(s.reg.objects[job.obj].cert, fetched), 0, s.observers))
  {
    run := FinishFetch(s, m, fetched, now);
    var told := NotifyAll(After(s, run), m);
    RunsCompose(s, run, told);
    run := run + told;
  }

  /** Left alone, the steps of a rotation have the effect of one atomic update,
      and each observer hears of its start and its end, in that order. */
  lemma UndisturbedRotationIsAtomic(s: System, m: nat, fetched: Option<Certificate>, now: Time) returns (run: seq<Step>)
    requires Invariant(s) && m < |s.monitors| && s.monitors[m].pc.Starting? && s.monitors[m].id in s.reg.connections
    ensures ValidRun(s, run) && ByOnly(run, m)
    ensures var id := s.monitors[m].id; var o := s.reg.connections[id]; var job := Job(o, |s.rotations|);
      && o < |s.reg.objects|
      && After(s, run) == System(
           s.reg.Rotate(id, fetched, now), s.observers, s.monitors[m := Monitor(id, Idle)], s.rotations + [s.observers],
           s.log + Events(job, OnStarted, 0, s.observers)
           + Events(job, Ending(s.reg.objects[o].cert, fetched), 0, s.observers))
  {
    run := Begin(s, m);
    var rest := Finish(After(s, run), m, fetched, now);
    RunsCompose(s, run, rest);
    run := run + rest;
  }
}
