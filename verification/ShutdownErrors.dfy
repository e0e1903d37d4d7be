/** What a shutdown reports: every failed close and every expired wait, once each, and
    to its caller the first of them. */
module ShutdownErrors {
  import opened Common
  import opened Shutdown

  ghost function CountOf(errors: seq<Failure>, f: Failure): nat {
    if errors == [] then 0
    else CountOf(errors[..|errors| - 1], f) + if errors[|errors| - 1] == f then 1 else 0
  }

  lemma CountOfAppend(errors: seq<Failure>, e: Failure, f: Failure)
    ensures CountOf(errors + [e], f) == CountOf(errors, f) + if e == f then 1 else 0
  {
    assert (errors + [e])[..|errors|] == errors;
  }

  ghost predicate ReturnedWith(entry: Entry, cause: string) {
    entry.status == Returned(Some(cause))
  }

  /** How many of these resources returned this error. */
  ghost function FailedWith(entries: seq<Entry>, cause: string): nat {
    if entries == [] then 0
    else
      FailedWith(entries[..|entries| - 1], cause) + if ReturnedWith(entries[|entries| - 1], cause) then 1 else 0
  }

  lemma {:induction false} FailedWithUpdate(entries: seq<Entry>, i: nat, entry: Entry, cause: string)
    requires i < |entries| && !ReturnedWith(entries[i], cause)
    ensures FailedWith(entries[i := entry], cause) ==
            FailedWith(entries, cause) + if ReturnedWith(entry, cause) then 1 else 0
  {
    var n := |entries| - 1;
    if i < n {
      FailedWithUpdate(entries[..n], i, entry, cause);
      assert entries[i := entry][..n] == entries[..n][i := entry];
    } else {
      assert entries[i := entry][..n] == entries[..n];
    }
  }

  lemma FailedWithAppend(entries: seq<Entry>, entry: Entry, cause: string)
    ensures FailedWith(entries + [entry], cause) ==
            FailedWith(entries, cause) + if ReturnedWith(entry, cause) then 1 else 0
  {
    assert (entries + [entry])[..|entries|] == entries;
  }

  /** How often a failure has happened. */
  ghost function Happened(s: System, f: Failure): nat {
    match f
    case CloseFailed(k, cause) => FailedWith(s.lists.At(k), cause)
    case WaitExpired(k) => if k in s.timeouts then 1 else 0
  }

  /** What a step reports. */
  ghost function News(s: System, step: Step): Option<Failure> {
    match step
    case Finish(k, _, error) => if error.Some? then Some(CloseFailed(k, error.value)) else None
    case FinishCleanup(error) => if error.Some? then Some(CloseFailed(Cleanup, error.value)) else None
    case WaitTimesOut => if s.phase.Waiting? then Some(WaitExpired(s.phase.kind)) else None
    case _ => None
  }

  lemma ErrorsNext(s: System, step: Step, f: Failure)
    requires Enabled(s, step)
    ensures CountOf(Do(s, step).errors, f) == CountOf(s.errors, f) + if News(s, step) == Some(f) then 1 else 0
  {
    if News(s, step).Some? {
      CountOfAppend(s.errors, News(s, step).value, f);
    }
  }

  lemma {:induction false} TargetedNext(s: System, step: Step, k: Kind, i: nat, cause: string)
    requires Invariant(s) && Enabled(s, step) && Target(s, step) == Some((k, i))
    ensures FailedWith(Do(s, step).lists.At(k), cause) ==
            FailedWith(s.lists.At(k), cause) + if News(s, step) == Some(CloseFailed(k, cause)) then 1 else 0
  {
    var status := ListsMove(s, step);
    TargetMoves(s, step, k, i);
    var entry := s.lists.At(k)[i].(status := status);
    WithAt(s.lists, k, s.lists.At(k)[i := entry], k);
    FailedWithUpdate(s.lists.At(k), i, entry, cause);
  }

  lemma {:induction false} FailuresNext(s: System, step: Step, k: Kind, cause: string)
    requires Invariant(s) && Enabled(s, step)
    ensures FailedWith(Do(s, step).lists.At(k), cause) ==
            FailedWith(s.lists.At(k), cause) + if News(s, step) == Some(CloseFailed(k, cause)) then 1 else 0
  {
    if Target(s, step).Some? && Target(s, step).value.0 == k {
      TargetedNext(s, step, k, Target(s, step).value.1, cause);
    } else {
      UntargetedNext(s, step, k, cause);
    }
  }

  lemma {:induction false} UntargetedNext(s: System, step: Step, k: Kind, cause: string)
    requires Enabled(s, step) && (Target(s, step).Some? ==> Target(s, step).value.0 != k)
    ensures FailedWith(Do(s, step).lists.At(k), cause) == FailedWith(s.lists.At(k), cause)
    ensures News(s, step) != Some(CloseFailed(k, cause))
  {
    var status := ListsMove(s, step);
    if Target(s, step).Some? {
      var (j, i) := Target(s, step).value;
      WithAt(s.lists, j, s.lists.At(j)[i := s.lists.At(j)[i].(status := status)], k);
    } else if step.Register? && step.resource.Some? && !s.shuttingDown {
      var entry := Entry(step.resource.value, Pending);
      WithAt(s.lists, step.kind, s.lists.At(step.kind) + [entry], k);
      FailedWithAppend(s.lists.At(k), entry, cause);
    }
  }

  lemma HappensNext(s: System, step: Step, f: Failure)
    requires Invariant(s) && Enabled(s, step)
    ensures Happened(Do(s, step), f) == Happened(s, f) + if News(s, step) == Some(f) then 1 else 0
  {
    if f.CloseFailed? {
      FailuresNext(s, step, f.kind, f.cause);
    }
  }

  /** At all times and for every error: it is reported as often as it has happened. */
  lemma {:induction false} ReportedAsHappened(s: System, run: seq<Step>, f: Failure)
    requires Invariant(s) && ValidRun(s, run) && CountOf(s.errors, f) == Happened(s, f)
    ensures CountOf(After(s, run).errors, f) == Happened(After(s, run), f)
    decreases |run|
  {
    if run != [] {
      FirstStep(s, run);
      ErrorsNext(s, run[0], f);
      HappensNext(s, run[0], f);
      ReportedAsHappened(Do(s, run[0]), run[1..], f);
    }
  }

  /** Once the body is over, its result is the first error. */
  ghost predicate FirstIsFinal(s: System) {
    s.phase.Over? ==> s.finalErr == if s.errors == [] then None else Some(s.errors[0])
  }

  lemma StepKeepsFirst(s: System, step: Step)
    requires Invariant(s) && Enabled(s, step) && FirstIsFinal(s)
    ensures FirstIsFinal(Do(s, step))
  {
    if step.Finish? && s.phase.Over? {
      LateMeansTimedOut(s, step.kind, step.i);
    }
  }

  lemma {:induction false} RunKeepsFirst(s: System, run: seq<Step>)
    requires Invariant(s) && ValidRun(s, run) && FirstIsFinal(s)
    ensures FirstIsFinal(After(s, run))
    decreases |run|
  {
    if run != [] {
      FirstStep(s, run);
      StepKeepsFirst(s, run[0]);
      RunKeepsFirst(Do(s, run[0]), run[1..]);
    }
  }

  /** In every run: each close that returned an error is reported with that error and
      each expired wait is reported, as often as they happened and no more; and the
      caller that ran the body gets the first report, every other caller nil. */
  lemma ReportIsExact(run: seq<Step>, f: Failure)
    requires ValidRun(INIT, run)
    ensures var t := After(INIT, run);
      && (f.CloseFailed? ==> CountOf(t.errors, f) == FailedWith(t.lists.At(f.kind), f.cause))
      && (f.WaitExpired? ==> CountOf(t.errors, f) == if f.kind in t.timeouts then 1 else 0)
      && forall c :: c in t.returned ==>
           t.returned[c] == if c == t.runner && t.errors != [] then Some(t.errors[0]) else None
  {
    assert INIT.lists.At(f.kind) == [];
    ReportedAsHappened(INIT, run, f);
    RunKeepsFirst(INIT, run);
    ReturnsRecorded(INIT, run);
  }
}
