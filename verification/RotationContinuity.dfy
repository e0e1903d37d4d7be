/** Rotation with overlap: any number of server and client rotations, each
    keeping its old side alive until the new one has proved itself. */
module RotationContinuity {
  import opened Common

  datatype Role = Server | Client

  datatype Phase = Preparation | Overlap | Validation | Completion | Failed

  datatype Policy = Policy(overlapDuration: Time, preRotationPrepTime: Time)

  datatype Pc =
    | Registered     // the pair is in the map
    | Preparing      // waits for the preparation time
    | Overlapping    // both sides are up, the new one not yet validated
    | Lingering      // validated once, waits for the overlap context
    | Validating
    | Completing     // validated twice, the old server not yet stopped
    | Removing
    | Failing        // a phase returned an error
    | Done(ok: bool)

  /** One rotation: its pair, its context (a deadline, and when it was cancelled)
      and what has happened so far. */
  datatype Rotation = Rotation(
    role: Role, id: string, deadline: Option<Time>, cancelledAt: Option<Time>, policy: Policy,
    phase: Phase, pc: Pc, began: Time, overlapStart: Time, validations: nat, stoppedAt: Option<Time>)

  type Key = (Role, string)

  /** `active` joins activeServers and activeClients. */
  datatype System = System(now: Time, rotations: seq<Rotation>, active: map<Key, nat>)

  const INIT: System := System(0, [], map[])

  datatype Step =
    | Tick(elapsed: nat)
    | Start(role: Role, id: string, deadline: Option<Time>)
    | Cancel(r: nat)
    | Begin(r: nat, policy: Policy)
    | PrepDone(r: nat)
    | PrepAborted(r: nat)
    | Validate(r: nat, ok: bool)
    | LingerDone(r: nat)
    | LingerAborted(r: nat)
    | Retire(r: nat)
    | Fail(r: nat)
    | Remove(r: nat)

  function KeyOf(rot: Rotation): Key {
    (rot.role, rot.id)
  }

  predicate ContextDone(rot: Rotation, now: Time) {
    rot.cancelledAt.Some? || (rot.deadline.Some? && rot.deadline.value <= now)
  }

  function AtLeastZero(d: Time): nat {
    if d < 0 then 0 else d
  }

  /** When the overlap context reports DeadlineExceeded: at its own timeout or,
      if that comes first, at the deadline it inherits. A negative timeout has
      passed at once. */
  function OverlapEnd(rot: Rotation): Time {
    var own := rot.overlapStart + AtLeastZero(rot.policy.overlapDuration);
    if rot.deadline.Some? && rot.deadline.value < own then rot.deadline.value else own
  }

  predicate Enabled(s: System, step: Step) {
    if step.Tick? || step.Start? then true
    else
      step.r < |s.rotations| &&
      var rot := s.rotations[step.r];
      match step
      case Cancel(_) => rot.cancelledAt.None?
      case Begin(_, _) => rot.pc.Registered?
      case PrepDone(_) => rot.pc.Preparing? && rot.began + rot.policy.preRotationPrepTime <= s.now
      case PrepAborted(_) => rot.pc.Preparing? && ContextDone(rot, s.now)
      case Validate(_, _) => rot.pc.Overlapping? || rot.pc.Validating?
      case LingerDone(_) =>
        rot.pc.Lingering? && OverlapEnd(rot) <= s.now
        && (rot.cancelledAt.Some? ==> OverlapEnd(rot) <= rot.cancelledAt.value)
      case LingerAborted(_) =>
        rot.pc.Lingering? && rot.cancelledAt.Some? && rot.cancelledAt.value <= OverlapEnd(rot)
      case Retire(_) => rot.pc.Completing?
      case Fail(_) => rot.pc.Failing?
      case Remove(_) => rot.pc.Removing?
  }

  function With(s: System, r: nat, rot: Rotation): System
    requires r < |s.rotations|
  {
    s.(rotations := s.rotations[r := rot])
  }

  function Do(s: System, step: Step): System
    requires Enabled(s, step)
  {
    match step
    case Tick(d) => s.(now := s.now + d)
    case Start(role, id, deadline) =>
      s.(rotations := s.rotations
                      + [Rotation(role, id, deadline, None, Policy(0, 0), Preparation, Registered, 0, 0, 0, None)],
         active := s.active[(role, id) := |s.rotations|])
    case Cancel(r) => With(s, r, s.rotations[r].(cancelledAt := Some(s.now)))
    case Begin(r, policy) => With(s, r, s.rotations[r].(pc := Preparing, policy := policy, began := s.now))
    case PrepDone(r) => With(s, r, s.rotations[r].(pc := Overlapping, phase := Overlap, overlapStart := s.now))
    case PrepAborted(r) => With(s, r, s.rotations[r].(pc := Failing))
    case Validate(r, ok) =>
      var rot := s.rotations[r];
      if !ok then With(s, r, rot.(pc := Failing))
      else if rot.pc.Overlapping? then With(s, r, rot.(pc := Lingering, validations := rot.validations + 1))
      else With(s, r, rot.(pc := Completing, phase := Completion, validations := rot.validations + 1))
    case LingerDone(r) => With(s, r, s.rotations[r].(pc := Validating, phase := Validation))
    case LingerAborted(r) => With(s, r, s.rotations[r].(pc := Failing))
    case Retire(r) =>
      var rot := s.rotations[r];
      With(s, r, if rot.role == Server then rot.(pc := Removing, stoppedAt := Some(s.now)) else rot.(pc := Removing))
    case Fail(r) => With(s, r, s.rotations[r].(pc := Done(false), phase := Failed))
    case Remove(r) => With(s, r, s.rotations[r].(pc := Done(true))).(active := s.active - {KeyOf(s.rotations[r])})
  }

  ghost predicate ValidRun(s: System, run: seq<Step>)
    decreases |run|
  {
    run != [] ==> Enabled(s, run[0]) && ValidRun(Do(s, run[0]), run[1..])
  }

  ghost function After(s: System, run: seq<Step>): System
    requires ValidRun(s, run)
    decreases |run|
  {
    if run == [] then s else After(Do(s, run[0]), run[1..])
  }

  // ---- The old server is not stopped too early ------------------------------

  /** The earliest moment the policy allows the old server to stop. */
  function Earliest(rot: Rotation): Time {
    rot.began + rot.policy.preRotationPrepTime + rot.policy.overlapDuration
  }

  /** The context's deadline, if any, does not cut the overlap short. */
  predicate DeadlineFits(rot: Rotation) {
    rot.deadline.None? || Earliest(rot) <= rot.deadline.value
  }

  predicate PhaseMatches(rot: Rotation) {
    match rot.pc
    case Registered => rot.phase == Preparation && rot.validations == 0
    case Preparing => rot.phase == Preparation && rot.validations == 0
    case Overlapping => rot.phase == Overlap && rot.validations == 0
    case Lingering => rot.phase == Overlap && rot.validations == 1
    case Validating => rot.phase == Validation && rot.validations == 1
    case Completing => rot.phase == Completion && rot.validations == 2
    case Removing => rot.phase == Completion && rot.validations == 2
    case Failing => rot.phase != Completion && rot.phase != Failed
    case Done(ok) => if ok then rot.phase == Completion && rot.validations == 2 else rot.phase == Failed
  }

  predicate Overlapped(rot: Rotation) {
    rot.pc.Validating? || rot.pc.Completing? || rot.pc.Removing? || rot.pc == Done(true)
  }

  predicate Safe(rot: Rotation, now: Time) {
    && PhaseMatches(rot)
    && (rot.stoppedAt.Some? <==> rot.role == Server && (rot.pc.Removing? || rot.pc == Done(true)))
    && (rot.stoppedAt.Some? ==> rot.overlapStart <= rot.stoppedAt.value <= now)
    && (rot.pc.Overlapping? || rot.pc.Lingering? || Overlapped(rot) ==>
          rot.began + rot.policy.preRotationPrepTime <= rot.overlapStart <= now)
    && (Overlapped(rot) && DeadlineFits(rot) ==>
          Earliest(rot) <= now && (rot.stoppedAt.Some? ==> Earliest(rot) <= rot.stoppedAt.value))
  }

  ghost predicate AllSafe(s: System) {
    forall r :: 0 <= r < |s.rotations| ==> Safe(s.rotations[r], s.now)
  }

  lemma StepKeepsOneSafe(s: System, step: Step, r: nat)
    requires AllSafe(s) && Enabled(s, step) && r < |Do(s, step).rotations|
    ensures Safe(Do(s, step).rotations[r], Do(s, step).now)
  {
    assert r < |s.rotations| ==> Safe(s.rotations[r], s.now);
  }

  lemma StepKeepsSafe(s: System, step: Step)
    requires AllSafe(s) && Enabled(s, step)
    ensures AllSafe(Do(s, step))
  {
    forall r: nat | r < |Do(s, step).rotations| ensures Safe(Do(s, step).rotations[r], Do(s, step).now) {
      StepKeepsOneSafe(s, step, r);
    }
  }

  lemma {:induction false} RunKeepsSafe(s: System, run: seq<Step>)
    requires AllSafe(s) && ValidRun(s, run)
    ensures AllSafe(After(s, run))
    decreases |run|
  {
    if run != [] {
      StepKeepsSafe(s, run[0]);
      RunKeepsSafe(Do(s, run[0]), run[1..]);
    }
  }

  /** In every run: an old server that is stopped belongs to a pair in Completion
      whose new certificate passed twice; a rotation that returned an error never
      stopped anything; and the policy's times were respected unless the context
      had a deadline inside them. */
  lemma OldServerStopsLate(run: seq<Step>, r: nat)
    requires ValidRun(INIT, run) && r < |After(INIT, run).rotations|
    ensures var rot := After(INIT, run).rotations[r];
      && (rot.stoppedAt.Some? ==>
            && rot.phase == Completion && rot.validations == 2
            && (DeadlineFits(rot) ==> Earliest(rot) <= rot.stoppedAt.value))
      && (rot.pc == Done(false) ==> rot.stoppedAt.None? && rot.phase == Failed)
      && (rot.pc == Done(true) && rot.role == Server ==> rot.stoppedAt.Some?)
  {
    RunKeepsSafe(INIT, run);
  }

  /** The pair's phase along any run. */
  predicate Forward(before: Phase, after: Phase) {
    match before
    case Preparation => true
    case Overlap => after != Preparation
    case Validation => after == Validation || after == Completion || after == Failed
    case Completion => after == Completion
    case Failed => after == Failed
  }

  lemma {:induction false} PhasesMoveForward(s: System, run: seq<Step>, r: nat)
    requires AllSafe(s) && ValidRun(s, run) && r < |s.rotations|
    ensures r < |After(s, run).rotations|
    ensures Forward(s.rotations[r].phase, After(s, run).rotations[r].phase)
    decreases |run|
  {
    if run != [] {
      var t := Do(s, run[0]);
      StepKeepsSafe(s, run[0]);
      assert Forward(s.rotations[r].phase, t.rotations[r].phase);
      PhasesMoveForward(t, run[1..], r);
    }
  }

  /** A step that fails its rotation: a validation that did not pass, or a wait that its
      context ended. */
  predicate Fails(step: Step) {
    step.PrepAborted? || step.LingerAborted? || (step.Validate? && !step.ok)
  }

  lemma {:induction false} StaysFailed(s: System, run: seq<Step>, r: nat)
    requires ValidRun(s, run) && r < |s.rotations|
    requires (s.rotations[r].pc.Failing? || s.rotations[r].pc == Done(false)) && s.rotations[r].stoppedAt.None?
    ensures r < |After(s, run).rotations| && After(s, run).rotations[r].stoppedAt.None?
    ensures After(s, run).rotations[r].pc.Failing? || After(s, run).rotations[r].pc == Done(false)
    decreases |run|
  {
    if run != [] {
      StaysFailed(Do(s, run[0]), run[1..], r);
    }
  }

  /** A rotation of which anything has failed never completes and never stops the old
      server, in any continuation. */
  lemma FailureIsFinal(s: System, step: Step, run: seq<Step>)
    requires AllSafe(s) && Enabled(s, step) && Fails(step) && ValidRun(Do(s, step), run)
    ensures var rot := After(Do(s, step), run).rotations;
      step.r < |rot| && rot[step.r].stoppedAt.None? && (rot[step.r].pc.Failing? || rot[step.r].pc == Done(false))
  {
    assert Safe(s.rotations[step.r], s.now);
    StaysFailed(Do(s, step), run, step.r);
  }

  lemma {:induction false} ContextStaysDone(s: System, run: seq<Step>, r: nat)
    requires ValidRun(s, run) && r < |s.rotations| && ContextDone(s.rotations[r], s.now)
    ensures r < |After(s, run).rotations| && ContextDone(After(s, run).rotations[r], After(s, run).now)
    decreases |run|
  {
    if run != [] {
      ContextStaysDone(Do(s, run[0]), run[1..], r);
    }
  }

  ghost predicate Faultless(s: System, r: nat) {
    r < |s.rotations| && !s.rotations[r].pc.Failing? && s.rotations[r].pc != Done(false)
  }

  lemma {:induction false} StepFailsForCause(s: System, step: Step, r: nat)
    requires Faultless(s, r) && Enabled(s, step) && step != Validate(r, false)
    requires !ContextDone(Do(s, step).rotations[r], Do(s, step).now)
    ensures Faultless(Do(s, step), r)
  {
  }

  /** And nothing else fails one: as long as its context has not ended and none of its
      validations has failed, a rotation has not failed. */
  lemma {:induction false} FailsOnlyForCause(s: System, run: seq<Step>, r: nat)
    requires ValidRun(s, run) && Faultless(s, r) && Validate(r, false) !in run
    requires r < |After(s, run).rotations| && !ContextDone(After(s, run).rotations[r], After(s, run).now)
    ensures Faultless(After(s, run), r)
    decreases |run|
  {
    if run != [] {
      var t := Do(s, run[0]);
      if ContextDone(t.rotations[r], t.now) {
        ContextStaysDone(t, run[1..], r);
      }
      StepFailsForCause(s, run[0], r);
      FailsOnlyForCause(t, run[1..], r);
    }
  }

  // ---- Exactly when the overlap can be cut short -----------------------------

  ghost predicate NeverEarly(s: System, r: nat)
    requires r < |s.rotations|
  {
    forall run :: ValidRun(s, run) && r < |After(s, run).rotations| && After(s, run).rotations[r].stoppedAt.Some? ==>
                    Earliest(s.rotations[r]) <= After(s, run).rotations[r].stoppedAt.value
  }

  lemma {:induction false} TermsAreKept(s: System, run: seq<Step>, r: nat)
    requires ValidRun(s, run) && r < |s.rotations| && !s.rotations[r].pc.Registered?
    ensures r < |After(s, run).rotations| && !After(s, run).rotations[r].pc.Registered?
    ensures After(s, run).rotations[r].began == s.rotations[r].began
    ensures After(s, run).rotations[r].policy == s.rotations[r].policy
    ensures After(s, run).rotations[r].deadline == s.rotations[r].deadline
    decreases |run|
  {
    if run != [] {
      TermsAreKept(Do(s, run[0]), run[1..], r);
    }
  }

  /** The preparation timer went off no later than the context ended. */
  predicate TimerFirst(rot: Rotation) {
    var timer := rot.began + AtLeastZero(rot.policy.preRotationPrepTime);
    && (rot.deadline.Some? ==> timer <= rot.deadline.value)
    && (rot.cancelledAt.Some? ==> timer <= rot.cancelledAt.value)
  }

  ghost predicate PromptAt(s: System, step: Step, r: nat)
    requires Enabled(s, step)
  {
    step == PrepDone(r) ==> TimerFirst(s.rotations[r])
  }

  /** A waiting select takes the first event; only a goroutine held up until both
      have happened may choose. In a prompt run rotation `r` never is. */
  ghost predicate Prompt(s: System, run: seq<Step>, r: nat)
    requires ValidRun(s, run)
    decreases |run|
  {
    run != [] ==> PromptAt(s, run[0], r) && Prompt(Do(s, run[0]), run[1..], r)
  }

  /** From the overlap on: the deadline passes, which reports DeadlineExceeded and
      counts as completed. */
  lemma EarlyOverlap(s: System, r: nat) returns (run: seq<Step>)
    requires r < |s.rotations|
    requires var rot := s.rotations[r];
      rot.role == Server && rot.pc.Overlapping? && rot.cancelledAt.None? && rot.overlapStart == s.now
    ensures ValidRun(s, run) && r < |After(s, run).rotations|
    ensures After(s, run).rotations[r].stoppedAt == Some(s.now + AtLeastZero(OverlapEnd(s.rotations[r]) - s.now))
    ensures Prompt(s, run, r)
  {
    var wait := Tick(AtLeastZero(OverlapEnd(s.rotations[r]) - s.now));
    var s1 := Do(s, Validate(r, true));
    var s2 := Do(s1, wait);
    run := EarlyEnd(Do(s2, LingerDone(r)), r);
    run := Prepend(s2, LingerDone(r), run);
    run := Prepend(s1, wait, run);
    run := Prepend(s, Validate(r, true), run);
  }

  lemma EarlyEnd(s: System, r: nat) returns (run: seq<Step>)
    requires r < |s.rotations| && s.rotations[r].role == Server && s.rotations[r].pc.Validating?
    ensures ValidRun(s, run) && r < |After(s, run).rotations|
    ensures After(s, run).rotations[r].stoppedAt == Some(s.now)
    ensures Prompt(s, run, r)
  {
    var t := Do(s, Validate(r, true));
    run := Prepend(t, Retire(r), []);
    run := Prepend(s, Validate(r, true), run);
  }

  /** The run that slips through: preparation elapses and the deadline passes. It
      needs a held-up goroutine only if the deadline comes before the end of
      preparation. */
  lemma EarlyRun(s: System, r: nat) returns (run: seq<Step>)
    requires r < |s.rotations|
    requires var rot := s.rotations[r];
      && rot.role == Server && rot.pc.Preparing? && rot.cancelledAt.None? && rot.began == s.now
      && rot.policy.preRotationPrepTime >= 0 && rot.policy.overlapDuration > 0
      && rot.deadline.Some? && rot.deadline.value < Earliest(rot)
    ensures ValidRun(s, run) && r < |After(s, run).rotations|
    ensures After(s, run).rotations[r].stoppedAt.Some?
    ensures After(s, run).rotations[r].stoppedAt.value < Earliest(s.rotations[r])
    ensures TimerFirst(s.rotations[r]) ==> Prompt(s, run, r)
  {
    var rot := s.rotations[r];
    var wait := Tick(rot.policy.preRotationPrepTime);
    var t := Do(s, wait);
    run := EarlyOverlap(Do(t, PrepDone(r)), r);
    assert TimerFirst(rot) ==> PromptAt(t, PrepDone(r), r);
    run := Prepend(t, PrepDone(r), run);
    run := Prepend(s, wait, run);
  }

  /** And no later than it has to: if the deadline leaves room, some run without a held-up
      goroutine stops the old server at the very end of the policy's times. */
  lemma StopsOnTime(s: System, r: nat) returns (run: seq<Step>)
    requires r < |s.rotations|
    requires var rot := s.rotations[r];
      && rot.role == Server && rot.pc.Preparing? && rot.cancelledAt.None? && rot.began == s.now
      && rot.policy.preRotationPrepTime >= 0 && rot.policy.overlapDuration >= 0 && DeadlineFits(rot)
    ensures ValidRun(s, run) && r < |After(s, run).rotations| && Prompt(s, run, r)
    ensures After(s, run).rotations[r].stoppedAt == Some(Earliest(s.rotations[r]))
  {
    var wait := Tick(s.rotations[r].policy.preRotationPrepTime);
    var t := Do(s, wait);
    run := EarlyOverlap(Do(t, PrepDone(r)), r);
    run := Prepend(t, PrepDone(r), run);
    run := Prepend(s, wait, run);
  }

  lemma Prepend(s: System, step: Step, rest: seq<Step>) returns (run: seq<Step>)
    requires Enabled(s, step) && ValidRun(Do(s, step), rest)
    ensures ValidRun(s, run) && After(s, run) == After(Do(s, step), rest)
    ensures forall r: nat :: PromptAt(s, step, r) && Prompt(Do(s, step), rest, r) ==> Prompt(s, run, r)
  {
    run := [step] + rest;
    assert run[1..] == rest;
  }

  /** A server rotation that has just begun keeps the policy's times in every
      continuation if and only if its context has no deadline inside them. */
  lemma OverlapIsKeptIff(s: System, r: nat)
    requires AllSafe(s) && r < |s.rotations|
    requires var rot := s.rotations[r];
      && rot.role == Server && rot.pc.Preparing? && rot.cancelledAt.None? && rot.began == s.now
      && rot.policy.preRotationPrepTime >= 0
    ensures NeverEarly(s, r) <==> DeadlineFits(s.rotations[r]) || s.rotations[r].policy.overlapDuration <= 0
  {
    var rot := s.rotations[r];
    if DeadlineFits(rot) || rot.policy.overlapDuration <= 0 {
      forall run | ValidRun(s, run) && r < |After(s, run).rotations| && After(s, run).rotations[r].stoppedAt.Some?
        ensures Earliest(rot) <= After(s, run).rotations[r].stoppedAt.value
      {
        RunKeepsSafe(s, run);
        TermsAreKept(s, run, r);
      }
    } else {
      var run := EarlyRun(s, r);
    }
  }

  ghost predicate NeverEarlyPromptly(s: System, r: nat)
    requires r < |s.rotations|
  {
    forall run :: ValidRun(s, run) && Prompt(s, run, r)
                  && r < |After(s, run).rotations| && After(s, run).rotations[r].stoppedAt.Some? ==>
                    Earliest(s.rotations[r]) <= After(s, run).rotations[r].stoppedAt.value
  }

  lemma {:induction false} EarlyDeadlineFails(s: System, run: seq<Step>, r: nat)
    requires ValidRun(s, run) && Prompt(s, run, r) && r < |s.rotations|
    requires var rot := s.rotations[r];
      && (rot.pc.Preparing? || rot.pc.Failing? || rot.pc == Done(false)) && rot.stoppedAt.None?
      && rot.deadline.Some? && rot.deadline.value < rot.began + rot.policy.preRotationPrepTime
    ensures r < |After(s, run).rotations| && After(s, run).rotations[r].stoppedAt.None?
    decreases |run|
  {
    if run != [] {
      EarlyDeadlineFails(Do(s, run[0]), run[1..], r);
    }
  }

  /** When no goroutine is held up, a deadline before the end of preparation fails
      the rotation, and only one during the overlap cuts it short. */
  lemma PromptOverlapIsKeptIff(s: System, r: nat)
    requires AllSafe(s) && r < |s.rotations|
    requires var rot := s.rotations[r];
      && rot.role == Server && rot.pc.Preparing? && rot.cancelledAt.None? && rot.began == s.now
      && rot.policy.preRotationPrepTime >= 0
    ensures var rot := s.rotations[r];
      NeverEarlyPromptly(s, r) <==>
      || DeadlineFits(rot) || rot.policy.overlapDuration <= 0
      || rot.deadline.value < rot.began + rot.policy.preRotationPrepTime
  {
    var rot := s.rotations[r];
    if DeadlineFits(rot) || rot.policy.overlapDuration <= 0 {
      OverlapIsKeptIff(s, r);
    } else if rot.deadline.value < rot.began + rot.policy.preRotationPrepTime {
      forall run | ValidRun(s, run) && Prompt(s, run, r) && r < |After(s, run).rotations|
        ensures After(s, run).rotations[r].stoppedAt.None?
      {
        EarlyDeadlineFails(s, run, r);
      }
    } else {
      var run := EarlyRun(s, r);
    }
  }

  // ---- The table of active rotations -------------------------------------------

  ghost predicate IsLatest(s: System, r: nat) {
    r < |s.rotations| && forall q :: r < q < |s.rotations| ==> KeyOf(s.rotations[q]) != KeyOf(s.rotations[r])
  }

  ghost predicate Idle(s: System, key: Key) {
    forall r :: 0 <= r < |s.rotations| && KeyOf(s.rotations[r]) == key ==> s.rotations[r].pc.Done?
  }

  /** A rotation of a key starts only when the earlier ones of that key returned. */
  ghost predicate Sequential(s: System, run: seq<Step>)
    requires ValidRun(s, run)
    decreases |run|
  {
    run != [] ==>
      && (run[0].Start? ==> Idle(s, (run[0].role, run[0].id)))
      && Sequential(Do(s, run[0]), run[1..])
  }

  ghost predicate EntryExact(s: System, key: Key) {
    key in s.active ==> IsLatest(s, s.active[key]) && KeyOf(s.rotations[s.active[key]]) == key
  }

  ghost predicate RotationShown(s: System, r: nat)
    requires r < |s.rotations|
  {
    if IsLatest(s, r) then KeyOf(s.rotations[r]) in s.active <==> s.rotations[r].pc != Done(true)
    else s.rotations[r].pc.Done?
  }

  ghost predicate TableExact(s: System) {
    && (forall key :: EntryExact(s, key))
    && (forall r: nat :: r < |s.rotations| ==> RotationShown(s, r))
  }

  lemma StartKeepsTable(s: System, step: Step)
    requires TableExact(s) && step.Start? && Idle(s, (step.role, step.id))
    ensures TableExact(Do(s, step))
  {
    var t, n, key := Do(s, step), |s.rotations|, (step.role, step.id);
    assert KeyOf(t.rotations[n]) == key;
    forall r: nat | r < n
      ensures IsLatest(t, r) <==> IsLatest(s, r) && KeyOf(s.rotations[r]) != key
      ensures RotationShown(t, r)
    {
      assert RotationShown(s, r);
      assert forall q :: 0 <= q < n ==> t.rotations[q] == s.rotations[q];
    }
    forall k ensures EntryExact(t, k) {
      assert EntryExact(s, k);
    }
  }

  lemma SameKeysSameLatest(s: System, t: System)
    requires |s.rotations| == |t.rotations|
    requires forall q :: 0 <= q < |s.rotations| ==> KeyOf(t.rotations[q]) == KeyOf(s.rotations[q])
    ensures forall r: nat :: IsLatest(t, r) <==> IsLatest(s, r)
  {
  }

  lemma MoveKeepsKeys(s: System, step: Step)
    requires Enabled(s, step) && !step.Start?
    ensures |Do(s, step).rotations| == |s.rotations|
    ensures forall q :: 0 <= q < |s.rotations| ==>
              && KeyOf(Do(s, step).rotations[q]) == KeyOf(s.rotations[q])
              && (s.rotations[q].pc.Done? ==> Do(s, step).rotations[q].pc == s.rotations[q].pc)
              && (Do(s, step).rotations[q].pc == Done(true) <==>
                    s.rotations[q].pc == Done(true) || (step.Remove? && step.r == q))
    ensures step.Remove? ==> s.rotations[step.r].pc.Removing?
  {
  }

  lemma MoveKeepsTable(s: System, step: Step)
    requires TableExact(s) && Enabled(s, step) && !step.Start?
    ensures TableExact(Do(s, step))
  {
    var t := Do(s, step);
    MoveKeepsKeys(s, step);
    SameKeysSameLatest(s, t);
    if step.Remove? {
      assert RotationShown(s, step.r);
    }
    forall r: nat | r < |t.rotations| ensures RotationShown(t, r) {
      assert RotationShown(s, r);
    }
    forall k ensures EntryExact(t, k) {
      assert EntryExact(s, k);
    }
  }

  lemma StepKeepsTable(s: System, step: Step)
    requires TableExact(s) && Enabled(s, step)
    requires step.Start? ==> Idle(s, (step.role, step.id))
    ensures TableExact(Do(s, step))
  {
    if step.Start? {
      StartKeepsTable(s, step);
    } else {
      MoveKeepsTable(s, step);
    }
  }

  lemma {:induction false} RunKeepsTable(s: System, run: seq<Step>)
    requires TableExact(s) && ValidRun(s, run) && Sequential(s, run)
    ensures TableExact(After(s, run))
    decreases |run|
  {
    if run != [] {
      StepKeepsTable(s, run[0]);
      RunKeepsTable(Do(s, run[0]), run[1..]);
    }
  }

  /** With sequential rotations of each key, and whatever other keys do, a key is
      in the table exactly while its latest rotation runs or has failed. */
  lemma TableShowsLatest(run: seq<Step>, key: Key)
    requires ValidRun(INIT, run) && Sequential(INIT, run)
    ensures var t := After(INIT, run);
      key in t.active <==>
      exists r: nat :: IsLatest(t, r) && KeyOf(t.rotations[r]) == key && t.rotations[r].pc != Done(true)
  {
    RunKeepsTable(INIT, run);
    var t := After(INIT, run);
    assert EntryExact(t, key);
    forall r: nat | IsLatest(t, r)
      ensures KeyOf(t.rotations[r]) in t.active <==> t.rotations[r].pc != Done(true)
    {
      assert RotationShown(t, r);
    }
  }

  // ---- Exactly when an entry can be lost ---------------------------------------

  /** The earliest end of the overlap that a rotation can still see. */
  function BestEnd(rot: Rotation, now: Time): Time {
    var start := if rot.pc.Registered? then now
      else if rot.pc.Preparing? && rot.began + rot.policy.preRotationPrepTime > now then
        rot.began + rot.policy.preRotationPrepTime
      else if rot.pc.Preparing? then now
      else rot.overlapStart;
    OverlapEnd(rot.(overlapStart := start,
                    policy := if rot.pc.Registered? then Policy(0, 0) else rot.policy))
  }

  /** A rotation can still succeed: it has not ended or failed, and a cancellation
      has not come before the end of its overlap. */
  predicate CanComplete(rot: Rotation, now: Time) {
    match rot.pc
    case Done(_) => false
    case Failing => false
    case Validating => true
    case Completing => true
    case Removing => true
    case _ => rot.cancelledAt.Some? ==> BestEnd(rot, now) <= rot.cancelledAt.value
  }

  lemma CanCompleteOnlyShrinks(s: System, step: Step, q: nat)
    requires Enabled(s, step) && q < |s.rotations|
    requires CanComplete(Do(s, step).rotations[q], Do(s, step).now)
    ensures CanComplete(s.rotations[q], s.now)
  {
  }

  /** The same when no goroutine is held up: the context must outlast preparation. */
  predicate CanCompletePromptly(rot: Rotation, now: Time) {
    && CanComplete(rot, now)
    && (rot.pc.Registered? ==> TimerFirst(rot.(began := now, policy := Policy(0, 0))))
    && (rot.pc.Preparing? ==> TimerFirst(rot))
  }

  lemma PromptlyOnlyShrinks(s: System, step: Step, q: nat)
    requires Enabled(s, step) && q < |s.rotations| && PromptAt(s, step, q)
    requires CanCompletePromptly(Do(s, step).rotations[q], Do(s, step).now)
    ensures CanCompletePromptly(s.rotations[q], s.now)
  {
    CanCompleteOnlyShrinks(s, step, q);
  }

  function Stage(pc: Pc): nat {
    match pc
    case Registered => 6
    case Preparing => 5
    case Overlapping => 4
    case Lingering => 3
    case Validating => 2
    case Completing => 1
    case _ => 0
  }

  function NextStep(rot: Rotation, q: nat): Step {
    match rot.pc
    case Registered => Begin(q, Policy(0, 0))
    case Preparing => PrepDone(q)
    case Overlapping => Validate(q, true)
    case Lingering => LingerDone(q)
    case Validating => Validate(q, true)
    case Completing => Retire(q)
    case _ => Remove(q)
  }

  /** How long the next step has to wait. */
  function Wait(rot: Rotation, now: Time): nat {
    if rot.pc.Preparing? then AtLeastZero(rot.began + rot.policy.preRotationPrepTime - now)
    else if rot.pc.Lingering? then AtLeastZero(OverlapEnd(rot) - now)
    else 0
  }

  lemma NextStepIsEnabled(s: System, q: nat)
    requires q < |s.rotations| && CanComplete(s.rotations[q], s.now)
    ensures var t := Do(s, Tick(Wait(s.rotations[q], s.now))); var step := NextStep(s.rotations[q], q);
      && Enabled(t, step)
      && |Do(t, step).rotations| == |s.rotations|
      && (forall p :: 0 <= p < |s.rotations| && p != q ==> Do(t, step).rotations[p] == s.rotations[p])
      && KeyOf(Do(t, step).rotations[q]) == KeyOf(s.rotations[q])
      && (if step.Remove? then Do(t, step).active == s.active - {KeyOf(s.rotations[q])}
          else
            && CanComplete(Do(t, step).rotations[q], Do(t, step).now)
            && Stage(Do(t, step).rotations[q].pc) < Stage(s.rotations[q].pc)
            && Do(t, step).active == s.active)
  {
  }

  lemma NextStepIsPrompt(s: System, q: nat)
    requires q < |s.rotations| && CanComplete(s.rotations[q], s.now)
    requires Enabled(Do(s, Tick(Wait(s.rotations[q], s.now))), NextStep(s.rotations[q], q))
    ensures var t := Do(s, Tick(Wait(s.rotations[q], s.now))); var step := NextStep(s.rotations[q], q);
      CanCompletePromptly(s.rotations[q], s.now) ==>
      && (forall p: nat :: PromptAt(t, step, p))
      && (!step.Remove? && CanComplete(Do(t, step).rotations[q], Do(t, step).now) ==>
            CanCompletePromptly(Do(t, step).rotations[q], Do(t, step).now))
  {
  }

  /** It then has a run of its own that succeeds and removes the entry of its key,
      whosever entry that is. */
  lemma {:induction false} Completes(s: System, q: nat) returns (run: seq<Step>)
    requires q < |s.rotations| && CanComplete(s.rotations[q], s.now)
    ensures ValidRun(s, run)
    ensures |After(s, run).rotations| == |s.rotations|
    ensures forall p :: 0 <= p < |s.rotations| && p != q ==> After(s, run).rotations[p] == s.rotations[p]
    ensures forall p :: 0 <= p < |s.rotations| ==> KeyOf(After(s, run).rotations[p]) == KeyOf(s.rotations[p])
    ensures After(s, run).active == s.active - {KeyOf(s.rotations[q])}
    ensures CanCompletePromptly(s.rotations[q], s.now) ==> forall p: nat :: Prompt(s, run, p)
    decreases Stage(s.rotations[q].pc)
  {
    NextStepIsEnabled(s, q);
    var wait, step := Tick(Wait(s.rotations[q], s.now)), NextStep(s.rotations[q], q);
    var t := Do(s, wait);
    NextStepIsPrompt(s, q);
    run := [];
    if !step.Remove? {
      run := Completes(Do(t, step), q);
    }
    run := Prepend(t, step, run);
    run := Prepend(s, wait, run);
  }

  /** As long as `r` is the latest of its key and has not itself succeeded. */
  ghost predicate StillNeeded(s: System, r: nat) {
    IsLatest(s, r) && s.rotations[r].pc != Done(true)
  }

  ghost predicate KeepsEntry(s: System, r: nat)
    requires r < |s.rotations|
  {
    forall run :: ValidRun(s, run) && StillNeeded(After(s, run), r) ==> KeyOf(s.rotations[r]) in After(s, run).active
  }

  ghost predicate NoRival(s: System, r: nat)
    requires r < |s.rotations|
  {
    forall q :: 0 <= q < r && KeyOf(s.rotations[q]) == KeyOf(s.rotations[r]) ==> !CanComplete(s.rotations[q], s.now)
  }

  lemma NotNeededAgain(s: System, step: Step, r: nat)
    requires Enabled(s, step) && r < |s.rotations| && !StillNeeded(s, r)
    ensures !StillNeeded(Do(s, step), r) && r < |Do(s, step).rotations|
    ensures KeyOf(Do(s, step).rotations[r]) == KeyOf(s.rotations[r])
  {
    if !IsLatest(s, r) {
      var q :| r < q < |s.rotations| && KeyOf(s.rotations[q]) == KeyOf(s.rotations[r]);
      assert KeyOf(Do(s, step).rotations[q]) == KeyOf(Do(s, step).rotations[r]);
    }
  }

  lemma {:induction false} NeverNeededAgain(s: System, run: seq<Step>, r: nat)
    requires ValidRun(s, run) && r < |s.rotations| && !StillNeeded(s, r)
    ensures !StillNeeded(After(s, run), r)
    decreases |run|
  {
    if run != [] {
      NotNeededAgain(s, run[0], r);
      NeverNeededAgain(Do(s, run[0]), run[1..], r);
    }
  }

  lemma StepKeepsNoRival(s: System, step: Step, r: nat)
    requires Enabled(s, step) && r < |s.rotations| && NoRival(s, r)
    ensures r < |Do(s, step).rotations| && KeyOf(Do(s, step).rotations[r]) == KeyOf(s.rotations[r])
    ensures NoRival(Do(s, step), r)
  {
    var t := Do(s, step);
    forall q | 0 <= q < r && KeyOf(t.rotations[q]) == KeyOf(t.rotations[r])
        ensures !CanComplete(t.rotations[q], t.now)
    {
      if CanComplete(t.rotations[q], t.now) {
        CanCompleteOnlyShrinks(s, step, q);
      }
    }
  }

  lemma StepKeepsEntry(s: System, step: Step, r: nat)
    requires Enabled(s, step) && StillNeeded(s, r) && NoRival(s, r) && KeyOf(s.rotations[r]) in s.active
    ensures StillNeeded(Do(s, step), r) ==> KeyOf(s.rotations[r]) in Do(s, step).active
  {
    assert step.Remove? && step.r < r && KeyOf(s.rotations[step.r]) == KeyOf(s.rotations[r]) ==>
        !CanComplete(s.rotations[step.r], s.now);
  }

  lemma {:induction false} RunKeepsEntry(s: System, run: seq<Step>, r: nat)
    requires ValidRun(s, run) && StillNeeded(s, r) && NoRival(s, r) && KeyOf(s.rotations[r]) in s.active
    ensures StillNeeded(After(s, run), r) ==> KeyOf(s.rotations[r]) in After(s, run).active
    decreases |run|
  {
    if run != [] {
      StepKeepsNoRival(s, run[0], r);
      StepKeepsEntry(s, run[0], r);
      if StillNeeded(Do(s, run[0]), r) {
        RunKeepsEntry(Do(s, run[0]), run[1..], r);
      } else {
        NeverNeededAgain(Do(s, run[0]), run[1..], r);
      }
    }
  }

  /** The latest rotation of a key keeps its entry in every continuation, while it
      runs or has failed, if and only if no earlier rotation of the key can still
      succeed. */
  lemma EntryIsKeptIff(s: System, r: nat)
    requires StillNeeded(s, r) && KeyOf(s.rotations[r]) in s.active
    ensures KeepsEntry(s, r) <==> NoRival(s, r)
  {
    if NoRival(s, r) {
      forall run | ValidRun(s, run) && StillNeeded(After(s, run), r)
        ensures KeyOf(s.rotations[r]) in After(s, run).active
      {
        RunKeepsEntry(s, run, r);
      }
    } else {
      var q :| 0 <= q < r && KeyOf(s.rotations[q]) == KeyOf(s.rotations[r]) && CanComplete(s.rotations[q], s.now);
      var run := Completes(s, q);
      assert StillNeeded(After(s, run), r);
      assert KeyOf(s.rotations[r]) !in After(s, run).active;
    }
  }

  ghost predicate KeepsEntryPromptly(s: System, r: nat)
    requires r < |s.rotations|
  {
    forall run :: ValidRun(s, run) && (forall p: nat :: Prompt(s, run, p)) && StillNeeded(After(s, run), r) ==>
                    KeyOf(s.rotations[r]) in After(s, run).active
  }

  ghost predicate NoPromptRival(s: System, r: nat)
    requires r < |s.rotations|
  {
    forall q :: 0 <= q < r && KeyOf(s.rotations[q]) == KeyOf(s.rotations[r]) ==>
                  !CanCompletePromptly(s.rotations[q], s.now)
  }

  lemma StepKeepsNoPromptRival(s: System, step: Step, r: nat)
    requires Enabled(s, step) && r < |s.rotations| && NoPromptRival(s, r)
    requires forall p: nat :: PromptAt(s, step, p)
    ensures r < |Do(s, step).rotations| && NoPromptRival(Do(s, step), r)
    ensures KeyOf(Do(s, step).rotations[r]) == KeyOf(s.rotations[r])
  {
    var t := Do(s, step);
    forall q | 0 <= q < r && KeyOf(t.rotations[q]) == KeyOf(t.rotations[r])
      ensures !CanCompletePromptly(t.rotations[q], t.now)
    {
      if CanCompletePromptly(t.rotations[q], t.now) {
        PromptlyOnlyShrinks(s, step, q);
      }
    }
  }

  lemma StepKeepsEntryPromptly(s: System, step: Step, r: nat)
    requires Enabled(s, step) && StillNeeded(s, r) && NoPromptRival(s, r) && KeyOf(s.rotations[r]) in s.active
    ensures StillNeeded(Do(s, step), r) ==> KeyOf(s.rotations[r]) in Do(s, step).active
  {
    assert step.Remove? && step.r < r && KeyOf(s.rotations[step.r]) == KeyOf(s.rotations[r]) ==>
        !CanCompletePromptly(s.rotations[step.r], s.now);
  }

  lemma PromptSteps(s: System, step: Step, rest: seq<Step>)
    requires Enabled(s, step) && ValidRun(Do(s, step), rest) && ValidRun(s, [step] + rest)
    requires forall p: nat :: Prompt(s, [step] + rest, p)
    ensures forall p: nat :: PromptAt(s, step, p) && Prompt(Do(s, step), rest, p)
  {
    assert ([step] + rest)[1..] == rest;
    forall p: nat ensures PromptAt(s, step, p) && Prompt(Do(s, step), rest, p) {
      assert Prompt(s, [step] + rest, p);
    }
  }

  lemma {:induction false} RunKeepsEntryPromptly(s: System, run: seq<Step>, r: nat)
    requires ValidRun(s, run) && (forall p: nat :: Prompt(s, run, p))
    requires StillNeeded(s, r) && NoPromptRival(s, r) && KeyOf(s.rotations[r]) in s.active
    ensures StillNeeded(After(s, run), r) ==> KeyOf(s.rotations[r]) in After(s, run).active
    decreases |run|
  {
    if run != [] {
      assert run == [run[0]] + run[1..];
      PromptSteps(s, run[0], run[1..]);
      StepKeepsNoPromptRival(s, run[0], r);
      StepKeepsEntryPromptly(s, run[0], r);
      if StillNeeded(Do(s, run[0]), r) {
        RunKeepsEntryPromptly(Do(s, run[0]), run[1..], r);
      } else {
        NeverNeededAgain(Do(s, run[0]), run[1..], r);
      }
    }
  }

  /** The same exact condition when no goroutine is held up. */
  lemma EntryIsKeptPromptlyIff(s: System, r: nat)
    requires StillNeeded(s, r) && KeyOf(s.rotations[r]) in s.active
    ensures KeepsEntryPromptly(s, r) <==> NoPromptRival(s, r)
  {
    if NoPromptRival(s, r) {
      forall run | ValidRun(s, run) && (forall p: nat :: Prompt(s, run, p)) && StillNeeded(After(s, run), r)
        ensures KeyOf(s.rotations[r]) in After(s, run).active
      {
        RunKeepsEntryPromptly(s, run, r);
      }
    } else {
      var q :| 0 <= q < r && KeyOf(s.rotations[q]) == KeyOf(s.rotations[r])
          && CanCompletePromptly(s.rotations[q], s.now);
      var run := Completes(s, q);
      assert StillNeeded(After(s, run), r);
      assert KeyOf(s.rotations[r]) !in After(s, run).active;
    }
  }

  /** The least case: of two rotations from an empty table, the first to finish
      drops the other's entry. */
  lemma OverlappingRotationsLoseEntry(id: string) returns (run: seq<Step>)
    ensures ValidRun(INIT, run)
    ensures var t := After(INIT, run);
      && IsLatest(t, 1) && KeyOf(t.rotations[1]) == (Server, id) && t.rotations[1].pc == Registered
      && (Server, id) !in t.active
  {
    var s1 := Do(INIT, Start(Server, id, None));
    var s2 := Do(s1, Start(Server, id, None));
    run := Completes(s2, 0);
    run := Prepend(s1, Start(Server, id, None), run);
    run := Prepend(INIT, Start(Server, id, None), run);
  }
}
