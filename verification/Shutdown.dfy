/** The shutdown coordinator under every interleaving of registrations, Shutdown
    calls and closing goroutines. */
module Shutdown {
  import opened Common

  datatype Kind = Server | Listener | Client | Cleanup

  /** Why Shutdown reports an error. */
  datatype Failure = CloseFailed(kind: Kind, cause: string) | WaitExpired(kind: Kind)

  /** What the goroutine of one registered resource has done so far. */
  datatype Status = Pending | Launched | Closing | Returned(error: Option<string>)

  datatype Entry = Entry(resource: int, status: Status)

  datatype Lists = Lists(servers: seq<Entry>, listeners: seq<Entry>, clients: seq<Entry>, cleanups: seq<Entry>) {
    function At(k: Kind): seq<Entry> {
      match k case Server => servers case Listener => listeners case Client => clients case Cleanup => cleanups
    }

    function With(k: Kind, entries: seq<Entry>): Lists {
      match k
      case Server => this.(servers := entries)
      case Listener => this.(listeners := entries)
      case Client => this.(clients := entries)
      case Cleanup => this.(cleanups := entries)
    }
  }

  /** Where the body of the Once is. */
  datatype Phase =
    | Idle
    | Opening                            // inside the Once, flag not yet set
    | Launching(kind: Kind, next: nat)
    | Waiting(kind: Kind)
    | Cleaning(next: nat)
    | Over

  /** `calls` are the Close calls made, in order; `returned` what each caller of
      Shutdown got; `expired` whether the force deadline or the caller's context
      has passed; `timeouts` the waits given up. */
  datatype System = System(
    lists: Lists, shuttingDown: bool, phase: Phase, runner: nat, expired: bool,
    timeouts: set<Kind>, errors: seq<Failure>, finalErr: Option<Failure>,
    callers: set<nat>, returned: map<nat, Option<Failure>>, calls: seq<(Kind, nat)>)

  const INIT: System :=
    System(Lists([], [], [], []), false, Idle, 0, false,
           {}, [], None, {}, map[], [])

  datatype Step =
    | Register(kind: Kind, resource: Option<int>)
    | Call(caller: nat)
    | SetFlag
    | Expire
    | Launch
    | AllLaunched
    | Begin(kind: Kind, i: nat)
    | Finish(kind: Kind, i: nat, error: Option<string>)
    | WaitDone
    | WaitTimesOut
    | BeginCleanup
    | FinishCleanup(error: Option<string>)
    | Collect
    | Return(caller: nat)

  ghost predicate AllReturned(entries: seq<Entry>) {
    forall i :: 0 <= i < |entries| ==> entries[i].status.Returned?
  }

  ghost predicate Enabled(s: System, step: Step)
  {
    match step
    case Register(_, _) => true
    case Call(c) => c !in s.callers
    case SetFlag => s.phase.Opening?
    case Expire => true
    case Launch => s.phase.Launching? && s.phase.next < |s.lists.At(s.phase.kind)|
    case AllLaunched => s.phase.Launching? && s.phase.next >= |s.lists.At(s.phase.kind)|
    case Begin(k, i) => k != Cleanup && i < |s.lists.At(k)| && s.lists.At(k)[i].status.Launched?
    case Finish(k, i, _) => k != Cleanup && i < |s.lists.At(k)| && s.lists.At(k)[i].status.Closing?
    case WaitDone => s.phase.Waiting? && AllReturned(s.lists.At(s.phase.kind))
    case WaitTimesOut => s.phase.Waiting? && s.phase.kind != Client && s.expired
    case BeginCleanup => s.phase.Cleaning? && s.phase.next < |s.lists.At(Cleanup)|
        && s.lists.At(Cleanup)[s.phase.next].status.Pending?
    case FinishCleanup(_) => s.phase.Cleaning? && s.phase.next < |s.lists.At(Cleanup)|
        && s.lists.At(Cleanup)[s.phase.next].status.Closing?
    case Collect => s.phase.Cleaning? && s.phase.next >= |s.lists.At(Cleanup)|
    case Return(c) => s.phase.Over? && c in s.callers && c !in s.returned
  }

  function AfterWait(kind: Kind): Phase {
    match kind
    case Server => Launching(Listener, 0)
    case Listener => Launching(Client, 0)
    case _ => Cleaning(0)
  }

  function WithStatus(s: System, k: Kind, i: nat, status: Status): System
    requires i < |s.lists.At(k)|
  {
    s.(lists := s.lists.With(k, s.lists.At(k)[i := s.lists.At(k)[i].(status := status)]))
  }

  function WithError(s: System, k: Kind, error: Option<string>): System {
    if error.Some? then s.(errors := s.errors + [CloseFailed(k, error.value)]) else s
  }

  ghost function Do(s: System, step: Step): System
    requires Enabled(s, step)
  {
    match step
    case Register(k, r) =>
      // nil and late resources are dropped
      if r.None? || s.shuttingDown then s else s.(lists := s.lists.With(k, s.lists.At(k) + [Entry(r.value, Pending)]))
    case Call(c) =>
      var t := s.(callers := s.callers + {c});
      if s.phase.Idle? then t.(phase := Opening, runner := c) else t
    case SetFlag => s.(shuttingDown := true, phase := Launching(Server, 0))
    case Expire => s.(expired := true)
    case Launch => WithStatus(s, s.phase.kind, s.phase.next, Launched).(phase := s.phase.(next := s.phase.next + 1))
    case AllLaunched => s.(phase := Waiting(s.phase.kind))
    case Begin(k, i) => WithStatus(s, k, i, Closing).(calls := s.calls + [(k, i)])
    case Finish(k, i, error) => WithError(WithStatus(s, k, i, Returned(error)), k, error)
    case WaitDone => s.(phase := AfterWait(s.phase.kind))
    case WaitTimesOut =>
      s.(phase := AfterWait(s.phase.kind), timeouts := s.timeouts + {s.phase.kind},
         errors := s.errors + [WaitExpired(s.phase.kind)])
    case BeginCleanup => WithStatus(s, Cleanup, s.phase.next, Closing).(calls := s.calls + [(Cleanup, s.phase.next)])
    case FinishCleanup(error) =>
      WithError(WithStatus(s, Cleanup, s.phase.next, Returned(error)), Cleanup, error).(
        phase := Cleaning(s.phase.next + 1))
    case Collect => s.(phase := Over, finalErr := if s.errors == [] then None else Some(s.errors[0]))
    case Return(c) => s.(returned := s.returned[c := if c == s.runner then s.finalErr else None])
  }

  // ---- The invariant ------------------------------------------------------

  function Turn(k: Kind): nat {
    match k case Server => 1 case Listener => 2 case Client => 3 case Cleanup => 4
  }

  function Reached(phase: Phase): nat {
    match phase
    case Idle => 0
    case Opening => 0
    case Launching(k, _) => Turn(k)
    case Waiting(k) => Turn(k)
    case Cleaning(_) => 4
    case Over => 5
  }

  ghost predicate Started(entries: seq<Entry>, to: nat) {
    forall i :: 0 <= i < to && i < |entries| ==> !entries[i].status.Pending?
  }

  ghost predicate Untouched(entries: seq<Entry>, from: nat) {
    forall i :: from <= i < |entries| ==> entries[i].status.Pending?
  }

  /** How far the resources of kind `k` may and must have got. */
  ghost predicate Fits(phase: Phase, k: Kind, entries: seq<Entry>, gaveUp: bool) {
    if Reached(phase) < Turn(k) then Untouched(entries, 0)
    else if Reached(phase) > Turn(k) then Started(entries, |entries|) && (gaveUp || AllReturned(entries))
    else if phase.Launching? then
      phase.next <= |entries| && Started(entries, phase.next) && Untouched(entries, phase.next)
    else if phase.Waiting? then Started(entries, |entries|)
    else
      && phase.next <= |entries| && AllReturned(entries[..phase.next]) && Untouched(entries, phase.next + 1)
      && (phase.next < |entries| ==> entries[phase.next].status.Pending? || entries[phase.next].status.Closing?)
  }

  ghost predicate InTurn(s: System, k: Kind)
  {
    Fits(s.phase, k, s.lists.At(k), k in s.timeouts)
  }

  ghost predicate FailedClose(s: System, k: Kind, i: nat)
  {
    i < |s.lists.At(k)| && s.lists.At(k)[i].status.Returned? && s.lists.At(k)[i].status.error.Some?
  }

  ghost predicate Blamed(s: System)
  {
    s.timeouts != {} || exists k, i :: FailedClose(s, k, i)
  }

  ghost predicate Phased(s: System)
  {
    && (s.shuttingDown <==> !s.phase.Idle? && !s.phase.Opening?)
    && (s.phase.Launching? || s.phase.Waiting? ==> s.phase.kind != Cleanup)
    && (forall k :: k in s.timeouts ==> (k == Server || k == Listener) && Turn(k) < Reached(s.phase) && s.expired)
    && (!s.phase.Over? ==> s.finalErr.None?)
  }

  ghost predicate Accounted(s: System)
  {
    && (s.errors != [] <==> Blamed(s))
    && (s.phase.Over? ==> (s.finalErr.Some? <==> s.errors != []))
  }

  ghost predicate Invariant(s: System) {
    Phased(s) && (forall k: Kind :: InTurn(s, k)) && Accounted(s)
  }

  lemma StepKeepsPhased(s: System, step: Step)
    requires Invariant(s) && Enabled(s, step)
    ensures Phased(Do(s, step))
  {
  }

  predicate ByGoroutine(step: Step) {
    step.Begin? || step.Finish?
  }

  predicate ByOutsider(step: Step) {
    step.Register? || step.Call? || step.Expire? || step.Return?
  }

  lemma GoroutineKeepsFits(phase: Phase, k: Kind, entries: seq<Entry>, gaveUp: bool, i: nat, status: Status)
    requires Fits(phase, k, entries, gaveUp) && k != Cleanup
    requires i < |entries| && !entries[i].status.Pending?
    requires entries[i].status.Returned? ==> status.Returned?
    requires !status.Pending? && (entries[i].status.Launched? || entries[i].status.Closing?)
    ensures Fits(phase, k, entries[i := entries[i].(status := status)], gaveUp)
  {
  }

  /** The entry a step writes to, if any. */
  function Target(s: System, step: Step): Option<(Kind, nat)> {
    match step
    case Launch => if s.phase.Launching? then Some((s.phase.kind, s.phase.next)) else None
    case Begin(k, i) => Some((k, i))
    case Finish(k, i, _) => Some((k, i))
    case BeginCleanup => if s.phase.Cleaning? then Some((Cleanup, s.phase.next)) else None
    case FinishCleanup(_) => if s.phase.Cleaning? then Some((Cleanup, s.phase.next)) else None
    case _ => None
  }

  predicate Calls(step: Step) {
    step.Begin? || step.BeginCleanup?
  }

  predicate Called(status: Status) {
    status.Closing? || status.Returned?
  }

  lemma WithAt(lists: Lists, j: Kind, entries: seq<Entry>, k: Kind)
    ensures lists.With(j, entries).At(k) == if k == j then entries else lists.At(k)
  {
  }

  /** A step changes at most the entry it targets, or appends one. */
  lemma ListsMove(s: System, step: Step) returns (status: Status)
    requires Enabled(s, step)
    ensures Target(s, step).Some? ==>
      var (j, i) := Target(s, step).value;
      i < |s.lists.At(j)| && Do(s, step).lists == WithStatus(s, j, i, status).lists
    ensures Target(s, step).None? && (step.Register? ==> s.shuttingDown || step.resource.None?) ==>
              Do(s, step).lists == s.lists
  {
    match step
    case Launch => status := Launched;
    case Begin(_, _) => status := Closing;
    case BeginCleanup => status := Closing;
    case Finish(_, _, error) => status := Returned(error);
    case FinishCleanup(error) => status := Returned(error);
    case _ => status := Pending;
  }

  lemma EntriesMove(s: System, step: Step, k: Kind)
    requires Enabled(s, step)
    ensures |s.lists.At(k)| <= |Do(s, step).lists.At(k)|
    ensures s.shuttingDown ==> |s.lists.At(k)| == |Do(s, step).lists.At(k)|
    ensures forall i :: 0 <= i < |s.lists.At(k)| ==>
              && Do(s, step).lists.At(k)[i].resource == s.lists.At(k)[i].resource
              && (Target(s, step) != Some((k, i)) ==> Do(s, step).lists.At(k)[i] == s.lists.At(k)[i])
    ensures forall i :: |s.lists.At(k)| <= i < |Do(s, step).lists.At(k)| ==> Do(s, step).lists.At(k)[i].status.Pending?
  {
    var status := ListsMove(s, step);
    if Target(s, step).Some? {
      var (j, i) := Target(s, step).value;
      WithAt(s.lists, j, s.lists.At(j)[i := s.lists.At(j)[i].(status := status)], k);
    } else if step.Register? && step.resource.Some? && !s.shuttingDown {
      WithAt(s.lists, step.kind, s.lists.At(step.kind) + [Entry(step.resource.value, Pending)], k);
    }
  }

  /** The targeted entry goes one station further. */
  lemma TargetMoves(s: System, step: Step, k: Kind, i: nat)
    requires Invariant(s) && Enabled(s, step) && Target(s, step) == Some((k, i))
    ensures i < |s.lists.At(k)| && i < |Do(s, step).lists.At(k)|
    ensures !s.lists.At(k)[i].status.Returned?
    ensures Calls(step) <==> !Called(s.lists.At(k)[i].status) && Called(Do(s, step).lists.At(k)[i].status)
    ensures Called(s.lists.At(k)[i].status) ==> Called(Do(s, step).lists.At(k)[i].status)
  {
    assert InTurn(s, k);
  }

  lemma FailureStays(s: System, step: Step, k: Kind, i: nat)
    requires Invariant(s) && Enabled(s, step) && FailedClose(s, k, i)
    ensures FailedClose(Do(s, step), k, i)
  {
    EntriesMove(s, step, k);
    if Target(s, step) == Some((k, i)) {
      TargetMoves(s, step, k, i);
    }
  }

  /** Launching goes through the list once, and only past its end to the wait. */
  lemma LaunchingKeepsInTurn(s: System, step: Step, k: Kind)
    requires Invariant(s) && Enabled(s, step) && (step.Launch? || step.AllLaunched?)
    ensures InTurn(Do(s, step), k)
  {
    var j, n := s.phase.kind, s.phase.next;
    assert InTurn(s, j) && InTurn(s, k);
    if step.Launch? {
      WithAt(s.lists, j, s.lists.At(j)[n := s.lists.At(j)[n].(status := Launched)], k);
    }
  }

  lemma CleaningKeepsInTurn(s: System, step: Step, k: Kind)
    requires Invariant(s) && Enabled(s, step) && (step.BeginCleanup? || step.FinishCleanup? || step.Collect?)
    ensures InTurn(Do(s, step), k)
  {
    var t, n, entries := Do(s, step), s.phase.next, s.lists.cleanups;
    assert InTurn(s, k);
    if k == Cleanup {
      if step.BeginCleanup? {
        assert t.lists.cleanups[..n] == entries[..n];
      } else if step.FinishCleanup? {
        assert t.lists.cleanups[..n + 1] == entries[..n] + [t.lists.cleanups[n]];
      } else {
        assert entries[..n] == entries;
      }
    }
  }

  lemma BodyKeepsInTurn(s: System, step: Step, k: Kind)
    requires Invariant(s) && Enabled(s, step) && !ByGoroutine(step) && !ByOutsider(step)
    ensures InTurn(Do(s, step), k)
  {
    assert InTurn(s, k);
    if step.Launch? || step.AllLaunched? {
      LaunchingKeepsInTurn(s, step, k);
    } else if step.BeginCleanup? || step.FinishCleanup? || step.Collect? {
      CleaningKeepsInTurn(s, step, k);
    }
  }

  lemma StepKeepsInTurn(s: System, step: Step, k: Kind)
    requires Invariant(s) && Enabled(s, step)
    ensures InTurn(Do(s, step), k)
  {
    assert InTurn(s, k);
    if ByGoroutine(step) {
      var status := if step.Begin? then Closing else Returned(step.error);
      var entries := s.lists.At(step.kind);
      WithAt(s.lists, step.kind, entries[step.i := entries[step.i].(status := status)], k);
      if step.kind == k {
        GoroutineKeepsFits(s.phase, k, entries, k in s.timeouts, step.i, status);
      }
    } else if ByOutsider(step) {
      EntriesMove(s, step, k);
      EntriesUnmoved(s, step, k);
    } else {
      BodyKeepsInTurn(s, step, k);
    }
  }

  lemma EntriesUnmoved(s: System, step: Step, k: Kind)
    requires Enabled(s, step) && ByOutsider(step) && InTurn(s, k) && Phased(s)
    requires |s.lists.At(k)| <= |Do(s, step).lists.At(k)|
    requires s.shuttingDown ==> |s.lists.At(k)| == |Do(s, step).lists.At(k)|
    requires forall i :: 0 <= i < |s.lists.At(k)| ==> Do(s, step).lists.At(k)[i] == s.lists.At(k)[i]
    requires forall i :: |s.lists.At(k)| <= i < |Do(s, step).lists.At(k)| ==> Do(s, step).lists.At(k)[i].status.Pending?
    ensures InTurn(Do(s, step), k)
  {
    assert s.shuttingDown ==> Do(s, step).lists.At(k) == s.lists.At(k);
  }

  /** A goroutine that is still closing when the body is over was given up. */
  lemma LateMeansTimedOut(s: System, k: Kind, i: nat)
    requires Invariant(s) && s.phase.Over? && i < |s.lists.At(k)| && !s.lists.At(k)[i].status.Returned?
    ensures k in s.timeouts && s.errors != [] && s.finalErr.Some?
  {
    assert InTurn(s, k);
  }

  predicate Errs(step: Step) {
    (step.Finish? || step.FinishCleanup?) && step.error.Some?
  }

  /** A close fails in the step that reports it. */
  lemma FailureIsReported(s: System, step: Step, k: Kind, i: nat)
    requires Invariant(s) && Enabled(s, step)
    ensures FailedClose(Do(s, step), k, i) <==> FailedClose(s, k, i) || (Errs(step) && Target(s, step) == Some((k, i)))
  {
    EntriesMove(s, step, k);
    if FailedClose(s, k, i) {
      FailureStays(s, step, k, i);
    }
    if Target(s, step) == Some((k, i)) {
      var status := ListsMove(s, step);
      TargetMoves(s, step, k, i);
      WithAt(s.lists, k, s.lists.At(k)[i := s.lists.At(k)[i].(status := status)], k);
    }
  }

  lemma ErrorsGrow(s: System, step: Step)
    requires Enabled(s, step)
    ensures Do(s, step).errors != [] <==> s.errors != [] || Errs(step) || step.WaitTimesOut?
    ensures Do(s, step).timeouts != {} <==> s.timeouts != {} || step.WaitTimesOut?
    ensures Errs(step) ==> Target(s, step).Some?
  {
    if step.WaitTimesOut? {
      assert s.phase.kind in Do(s, step).timeouts;
    }
  }

  lemma StepKeepsBlame(s: System, step: Step)
    requires Invariant(s) && Enabled(s, step)
    ensures Do(s, step).errors != [] <==> Blamed(Do(s, step))
  {
    var t := Do(s, step);
    ErrorsGrow(s, step);
    forall k: Kind, i: nat
      ensures FailedClose(t, k, i) <==> FailedClose(s, k, i) || (Errs(step) && Target(s, step) == Some((k, i)))
    {
      FailureIsReported(s, step, k, i);
    }
    if Errs(step) {
      var (k, i) := Target(s, step).value;
      assert FailedClose(t, k, i);
    } else if k, i: nat :| FailedClose(s, k, i) {
      assert FailedClose(t, k, i);
    }
  }

  lemma StepKeepsInvariant(s: System, step: Step)
    requires Invariant(s) && Enabled(s, step)
    ensures Invariant(Do(s, step))
  {
    StepKeepsPhased(s, step);
    StepKeepsBlame(s, step);
    forall k: Kind ensures InTurn(Do(s, step), k) {
      StepKeepsInTurn(s, step, k);
    }
    if step.Finish? && s.phase.Over? {
      LateMeansTimedOut(s, step.kind, step.i);
    }
  }

  ghost predicate ValidRun(s: System, run: seq<Step>)
    requires Invariant(s)
    decreases |run|
  {
    run != [] ==> Enabled(s, run[0]) && (StepKeepsInvariant(s, run[0]); ValidRun(Do(s, run[0]), run[1..]))
  }

  ghost function After(s: System, run: seq<Step>): (t: System)
    requires Invariant(s) && ValidRun(s, run)
    ensures Invariant(t)
    decreases |run|
  {
    if run == [] then s else (StepKeepsInvariant(s, run[0]); After(Do(s, run[0]), run[1..]))
  }

  // ---- What the invariant gives -----------------------------------------------

  /** In every reachable state: listeners are touched only after the servers have
      returned or the deadline passed, clients likewise after the listeners, and
      cleanup functions only after every client has returned. */
  lemma PhasesAreOrdered(run: seq<Step>)
    requires ValidRun(INIT, run)
    ensures var t := After(INIT, run);
      && (forall i :: 0 <= i < |t.lists.At(Listener)| && !t.lists.At(Listener)[i].status.Pending? ==>
            t.expired || AllReturned(t.lists.At(Server)))
      && (forall i :: 0 <= i < |t.lists.At(Client)| && !t.lists.At(Client)[i].status.Pending? ==>
            t.expired || (AllReturned(t.lists.At(Server)) && AllReturned(t.lists.At(Listener))))
      && (forall i :: 0 <= i < |t.lists.At(Cleanup)| && !t.lists.At(Cleanup)[i].status.Pending? ==>
            AllReturned(t.lists.At(Client)))
  {
    var t := After(INIT, run);
    assert InTurn(t, Server) && InTurn(t, Listener) && InTurn(t, Client) && InTurn(t, Cleanup);
  }

  ghost function Resources(entries: seq<Entry>): seq<int> {
    seq(|entries|, i requires 0 <= i < |entries| => entries[i].resource)
  }

  lemma {:induction false} ListsFreeze(s: System, run: seq<Step>, k: Kind)
    requires Invariant(s) && ValidRun(s, run) && s.shuttingDown
    ensures After(s, run).shuttingDown
    ensures Resources(After(s, run).lists.At(k)) == Resources(s.lists.At(k))
    decreases |run|
  {
    if run != [] {
      StepKeepsInvariant(s, run[0]);
      EntriesMove(s, run[0], k);
      assert Resources(Do(s, run[0]).lists.At(k)) == Resources(s.lists.At(k));
      ListsFreeze(Do(s, run[0]), run[1..], k);
    }
  }

  /** What a run registers: the resources, other than nil, of the registrations of
      kind `k` before the flag is set, in order. */
  ghost function Registered(run: seq<Step>, k: Kind): seq<int> {
    if run == [] || run[0].SetFlag? then []
    else if run[0].Register? && run[0].kind == k && run[0].resource.Some? then
      [run[0].resource.value] + Registered(run[1..], k)
    else Registered(run[1..], k)
  }

  lemma ResourcesAppend(entries: seq<Entry>, entry: Entry)
    ensures Resources(entries + [entry]) == Resources(entries) + [entry.resource]
  {
  }

  lemma {:induction false} KeepsResources(s: System, step: Step, k: Kind)
    requires Enabled(s, step) && !step.Register?
    ensures Resources(Do(s, step).lists.At(k)) == Resources(s.lists.At(k))
  {
    var status := ListsMove(s, step);
    if Target(s, step).Some? {
      var (j, i) := Target(s, step).value;
      WithAt(s.lists, j, s.lists.At(j)[i := s.lists.At(j)[i].(status := status)], k);
    }
  }

  lemma {:induction false} StepRegisters(s: System, step: Step, k: Kind)
    requires Enabled(s, step) && !s.shuttingDown
    ensures Do(s, step).shuttingDown <==> step.SetFlag?
    ensures Resources(Do(s, step).lists.At(k)) == Resources(s.lists.At(k)) + Registered([step], k)
  {
    if step.Register? {
      if step.resource.Some? {
        var entry := Entry(step.resource.value, Pending);
        WithAt(s.lists, step.kind, s.lists.At(step.kind) + [entry], k);
        ResourcesAppend(s.lists.At(k), entry);
      }
    } else {
      KeepsResources(s, step, k);
    }
  }

  lemma {:induction false} RegisteredSplits(step: Step, rest: seq<Step>, k: Kind)
    ensures Registered([step] + rest, k) == Registered([step], k) + if step.SetFlag? then [] else Registered(rest, k)
  {
    assert ([step] + rest)[1..] == rest && [step][1..] == [];
  }

  lemma FirstStep(s: System, run: seq<Step>)
    requires Invariant(s) && ValidRun(s, run) && run != []
    ensures Enabled(s, run[0]) && Invariant(Do(s, run[0])) && ValidRun(Do(s, run[0]), run[1..])
    ensures After(s, run) == After(Do(s, run[0]), run[1..])
  {
    StepKeepsInvariant(s, run[0]);
  }

  /** The lists hold exactly what was registered before the flag was set, in order:
      nothing registered in time is lost, and nothing else gets in. */
  lemma {:induction false} RegistrationsAreKept(s: System, run: seq<Step>, k: Kind)
    requires Invariant(s) && ValidRun(s, run) && !s.shuttingDown
    ensures Resources(After(s, run).lists.At(k)) == Resources(s.lists.At(k)) + Registered(run, k)
    decreases |run|
  {
    if run != [] {
      FirstStep(s, run);
      var step, rest := run[0], run[1..];
      assert run == [step] + rest;
      StepRegisters(s, step, k);
      RegisteredSplits(step, rest, k);
      if step.SetFlag? {
        ListsFreeze(Do(s, step), rest, k);
      } else {
        RegistrationsAreKept(Do(s, step), rest, k);
        Regroup(Resources(s.lists.At(k)), Registered([step], k), Registered(rest, k));
      }
    }
  }

  ghost function CallsOf(calls: seq<(Kind, nat)>, k: Kind, i: nat): nat {
    if calls == [] then 0
    else CallsOf(calls[..|calls| - 1], k, i) + if calls[|calls| - 1] == (k, i) then 1 else 0
  }

  lemma CallsOfAppend(calls: seq<(Kind, nat)>, c: (Kind, nat), k: Kind, i: nat)
    ensures CallsOf(calls + [c], k, i) == CallsOf(calls, k, i) + if c == (k, i) then 1 else 0
  {
    assert (calls + [c])[..|calls|] == calls;
  }

  /** Close is called once on each resource that has got that far, and on nothing else. */
  ghost predicate CallsMatch(s: System, k: Kind, i: nat) {
    CallsOf(s.calls, k, i) == if i < |s.lists.At(k)| && Called(s.lists.At(k)[i].status) then 1 else 0
  }

  lemma CallsGrow(s: System, step: Step, k: Kind, i: nat)
    requires Enabled(s, step)
    ensures CallsOf(Do(s, step).calls, k, i) ==
            CallsOf(s.calls, k, i) + if Calls(step) && Target(s, step) == Some((k, i)) then 1 else 0
  {
    if Calls(step) {
      CallsOfAppend(s.calls, Target(s, step).value, k, i);
    }
  }

  lemma StepKeepsCallsMatch(s: System, step: Step, k: Kind, i: nat)
    requires Invariant(s) && Enabled(s, step) && CallsMatch(s, k, i)
    ensures CallsMatch(Do(s, step), k, i)
  {
    CallsGrow(s, step, k, i);
    EntriesMove(s, step, k);
    if Target(s, step) == Some((k, i)) {
      TargetMoves(s, step, k, i);
    }
  }

  lemma {:induction false} RunKeepsCallsMatch(s: System, run: seq<Step>, k: Kind, i: nat)
    requires Invariant(s) && ValidRun(s, run) && CallsMatch(s, k, i)
    ensures CallsMatch(After(s, run), k, i)
    decreases |run|
  {
    if run != [] {
      StepKeepsInvariant(s, run[0]);
      StepKeepsCallsMatch(s, run[0], k, i);
      RunKeepsCallsMatch(Do(s, run[0]), run[1..], k, i);
    }
  }

  /** What a caller got, once it has returned. */
  ghost predicate Recorded(s: System) {
    forall c :: c in s.returned ==>
                  s.phase.Over? && s.returned[c] == if c == s.runner then s.finalErr else None
  }

  lemma StepKeepsRecorded(s: System, step: Step)
    requires Enabled(s, step) && Recorded(s)
    ensures Recorded(Do(s, step))
  {
  }

  lemma {:induction false} ReturnsRecorded(s: System, run: seq<Step>)
    requires Invariant(s) && ValidRun(s, run) && Recorded(s)
    ensures Recorded(After(s, run))
    decreases |run|
  {
    if run != [] {
      StepKeepsInvariant(s, run[0]);
      StepKeepsRecorded(s, run[0]);
      ReturnsRecorded(Do(s, run[0]), run[1..]);
    }
  }

  /** Once any Shutdown call has returned, every accepted resource was closed
      exactly once and has returned, except that a kind whose wait expired may
      still have goroutines on their way; nothing else was ever closed. */
  lemma AcceptedAreClosedOnce(run: seq<Step>, c: nat, k: Kind, i: nat)
    requires ValidRun(INIT, run) && c in After(INIT, run).returned
    ensures var t := After(INIT, run);
      && (i >= |t.lists.At(k)| ==> CallsOf(t.calls, k, i) == 0)
      && (i < |t.lists.At(k)| && k !in t.timeouts ==> CallsOf(t.calls, k, i) == 1 && t.lists.At(k)[i].status.Returned?)
      && (i < |t.lists.At(k)| && k in t.timeouts ==>
            CallsOf(t.calls, k, i) <= 1 && !t.lists.At(k)[i].status.Pending? && (k == Server || k == Listener))
  {
    RunKeepsCallsMatch(INIT, run, k, i);
    ReturnsRecorded(INIT, run);
    var t := After(INIT, run);
    assert InTurn(t, k);
  }

  /** So once a Shutdown call has returned, each resource registered in time was closed
      exactly once, in its place, unless the wait for its kind ran out; and nothing
      else was closed. */
  lemma {:induction false} RegisteredAreClosedOnce(run: seq<Step>, c: nat, k: Kind, i: nat)
    requires ValidRun(INIT, run) && c in After(INIT, run).returned
    ensures var t := After(INIT, run); var registered := Registered(run, k);
      && Resources(t.lists.At(k)) == registered
      && (i >= |registered| ==> CallsOf(t.calls, k, i) == 0)
      && (i < |registered| ==> CallsOf(t.calls, k, i) <= 1)
      && (i < |registered| && k !in t.timeouts ==> CallsOf(t.calls, k, i) == 1)
  {
    AcceptedAreClosedOnce(run, c, k, i);
    RegistrationsAreKept(INIT, run, k);
    assert [] + Registered(run, k) == Registered(run, k);
  }

  ghost predicate CleanShutdown(s: System)
  {
    && s.timeouts == {}
    && forall k: Kind, i :: 0 <= i < |s.lists.At(k)| ==> s.lists.At(k)[i].status == Returned(None)
  }

  /** The call that ran the body returns nil exactly when no wait expired and
      every close and cleanup returned nil; every other call returns nil. */
  lemma NilMeansClean(run: seq<Step>, c: nat)
    requires ValidRun(INIT, run) && c in After(INIT, run).returned
    ensures var t := After(INIT, run);
      t.returned[c].None? <==> c != t.runner || CleanShutdown(t)
  {
    var t := After(INIT, run);
    ReturnsRecorded(INIT, run);
    assert forall k: Kind :: InTurn(t, k);
    if CleanShutdown(t) && !Blamed(t) {
    } else if !Blamed(t) {
      forall k: Kind, i | 0 <= i < |t.lists.At(k)| ensures t.lists.At(k)[i].status == Returned(None) {
        assert InTurn(t, k) && !FailedClose(t, k, i);
      }
    } else if k, i :| FailedClose(t, k, i) {
      assert !CleanShutdown(t);
    }
  }
}
