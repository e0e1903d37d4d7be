/** The rotation service object: one call of RotateServerWithContinuity from
    preparation to clean-up. */
module ContinuityService {
  import opened Common
  import opened RotationContinuity

  /** How a timed select ends. */
  datatype Wake = Elapsed | ContextEnded

  /** What one call meets: whether the new server and the current certificate
      could be obtained, how its two waits end and how its validations go. */
  datatype Script = Script(prepared: bool, oldCert: bool, prepWake: Wake, firstValid: bool, overlapWake: Wake,
                           secondValid: bool)

  datatype Outcome = Completed | NotPrepared | NoCurrentCertificate | RotationFailed

  /** The phases the pair goes through. */
  function Trail(script: Script): (trail: seq<Phase>)
    ensures |trail| >= 2 && trail[0] == Preparation
    ensures Completion in trail <==>
            script.prepWake.Elapsed? && script.firstValid && script.overlapWake.Elapsed? && script.secondValid
    ensures forall i :: 0 < i < |trail| ==> trail[i] != trail[i - 1] && Forward(trail[i - 1], trail[i])
  {
    if script.prepWake.ContextEnded? then [Preparation, Failed]
    else if !script.firstValid || script.overlapWake.ContextEnded? then [Preparation, Overlap, Failed]
    else if !script.secondValid then [Preparation, Overlap, Validation, Failed]
    else [Preparation, Overlap, Validation, Completion]
  }

  // ---- A script is a run of the step machine -------------------------------------

  /** The phases rotation `r` goes through along a run, repetitions dropped. */
  ghost function Trace(s: System, run: seq<Step>, r: nat): (trace: seq<Phase>)
    requires ValidRun(s, run) && r < |s.rotations|
    ensures trace != [] && trace[0] == s.rotations[r].phase
    decreases |run|
  {
    if run == [] then [s.rotations[r].phase]
    else Entering(s.rotations[r].phase, Trace(Do(s, run[0]), run[1..], r))
  }

  ghost function Entering(phase: Phase, trace: seq<Phase>): seq<Phase> {
    if trace != [] && trace[0] == phase then trace else [phase] + trace
  }

  /** What a call leaves behind: its rotation ended, the old server stopped and the
      entry gone exactly if it ended well, and every other rotation as it was. */
  ghost predicate Ended(s: System, t: System, n: nat, ok: bool)
    requires n < |s.rotations|
  {
    && |t.rotations| == |s.rotations|
    && (forall q :: 0 <= q < |s.rotations| && q != n ==> t.rotations[q] == s.rotations[q])
    && t.rotations[n].pc == RotationContinuity.Done(ok)
    && (t.rotations[n].stoppedAt.Some? <==> ok)
    && t.active == if ok then s.active - {KeyOf(s.rotations[n])} else s.active
  }

  lemma Preceded(s: System, step: Step, rest: seq<Step>, n: nat, ok: bool) returns (run: seq<Step>)
    requires Enabled(s, step) && !step.Start? && !step.Remove? && ValidRun(Do(s, step), rest)
    requires n < |s.rotations| && (step.Tick? || step.r == n)
    requires Ended(Do(s, step), After(Do(s, step), rest), n, ok)
    ensures ValidRun(s, run) && Ended(s, After(s, run), n, ok)
    ensures Trace(s, run, n) == Entering(s.rotations[n].phase, Trace(Do(s, step), rest, n))
  {
    run := [step] + rest;
    assert run[1..] == rest;
    assert KeyOf(Do(s, step).rotations[n]) == KeyOf(s.rotations[n]);
  }

  lemma LastStep(s: System, step: Step, n: nat) returns (run: seq<Step>)
    requires Enabled(s, step) && n < |s.rotations| && (step == Fail(n) || step == Remove(n))
    requires s.rotations[n].stoppedAt.Some? <==> step.Remove?
    ensures ValidRun(s, run) && Ended(s, After(s, run), n, step.Remove?)
    ensures var phase := s.rotations[n].phase;
      Trace(s, run, n) == if step.Remove? || phase.Failed? then [phase] else [phase, Failed]
  {
    run := [step];
    assert run[1..] == [];
  }

  lemma FromValidating(s: System, n: nat, script: Script) returns (run: seq<Step>)
    requires n < |s.rotations| && s.rotations[n].pc.Validating? && s.rotations[n].role == Server
    requires s.rotations[n].phase == Validation && s.rotations[n].stoppedAt.None?
    ensures ValidRun(s, run) && Ended(s, After(s, run), n, script.secondValid)
    ensures Trace(s, run, n) == [Validation, if script.secondValid then Completion else Failed]
  {
    var t := Do(s, Validate(n, script.secondValid));
    if script.secondValid {
      run := LastStep(Do(t, Retire(n)), Remove(n), n);
      run := Preceded(t, Retire(n), run, n, true);
    } else {
      run := LastStep(t, Fail(n), n);
    }
    run := Preceded(s, Validate(n, script.secondValid), run, n, script.secondValid);
  }

  ghost predicate Underway(s: System, n: nat, pc: Pc, phase: Phase) {
    && n < |s.rotations|
    && var rot := s.rotations[n];
       && rot.pc == pc && rot.phase == phase && rot.role == Server
       && rot.stoppedAt.None? && rot.cancelledAt.None? && rot.deadline.None?
  }

  lemma CutShort(s: System, n: nat, pc: Pc, phase: Phase) returns (run: seq<Step>)
    requires Underway(s, n, pc, phase)
    requires || (pc.Preparing? && phase == Preparation)
             || (pc.Lingering? && phase == Overlap && s.rotations[n].overlapStart == s.now)
    ensures ValidRun(s, run) && Ended(s, After(s, run), n, false)
    ensures Trace(s, run, n) == [phase, Failed]
  {
    var abort := if pc.Preparing? then PrepAborted(n) else LingerAborted(n);
    var t := Do(s, Cancel(n));
    run := LastStep(Do(t, abort), Fail(n), n);
    run := Preceded(t, abort, run, n, false);
    run := Preceded(s, Cancel(n), run, n, false);
  }

  lemma FromLingering(s: System, n: nat, script: Script) returns (run: seq<Step>)
    requires Underway(s, n, Lingering, Overlap) && s.rotations[n].overlapStart == s.now
    ensures ValidRun(s, run) && Ended(s, After(s, run), n, script.overlapWake.Elapsed? && script.secondValid)
    ensures Trace(s, run, n) ==
            if script.overlapWake.ContextEnded? then [Overlap, Failed]
            else [Overlap, Validation, if script.secondValid then Completion else Failed]
  {
    if script.overlapWake.ContextEnded? {
      run := CutShort(s, n, Lingering, Overlap);
    } else {
      var wait := Tick(AtLeastZero(s.rotations[n].policy.overlapDuration));
      var t := Do(s, wait);
      run := FromValidating(Do(t, LingerDone(n)), n, script);
      run := Preceded(t, LingerDone(n), run, n, script.secondValid);
      run := Preceded(s, wait, run, n, script.secondValid);
    }
  }

  lemma FromOverlapping(s: System, n: nat, script: Script) returns (run: seq<Step>)
    requires Underway(s, n, Overlapping, Overlap) && s.rotations[n].overlapStart == s.now
    ensures ValidRun(s, run)
    ensures Ended(s, After(s, run), n, script.firstValid && script.overlapWake.Elapsed? && script.secondValid)
    ensures Trace(s, run, n) ==
            if !script.firstValid || script.overlapWake.ContextEnded? then [Overlap, Failed]
            else [Overlap, Validation, if script.secondValid then Completion else Failed]
  {
    var t := Do(s, Validate(n, script.firstValid));
    if script.firstValid {
      run := FromLingering(t, n, script);
    } else {
      run := LastStep(t, Fail(n), n);
    }
    run := Preceded(s, Validate(n, script.firstValid), run, n,
                    script.firstValid && script.overlapWake.Elapsed? && script.secondValid);
  }

  lemma FromPreparing(s: System, n: nat, script: Script) returns (run: seq<Step>)
    requires Underway(s, n, Preparing, Preparation) && s.rotations[n].began == s.now
    ensures ValidRun(s, run) && Ended(s, After(s, run), n, Completion in Trail(script))
    ensures Trace(s, run, n) == Trail(script)
  {
    if script.prepWake.ContextEnded? {
      run := CutShort(s, n, Preparing, Preparation);
    } else {
      var wait := Tick(AtLeastZero(s.rotations[n].policy.preRotationPrepTime));
      var t := Do(s, wait);
      run := FromOverlapping(Do(t, PrepDone(n)), n, script);
      run := Preceded(t, PrepDone(n), run, n, Completion in Trail(script));
      run := Preceded(s, wait, run, n, Completion in Trail(script));
    }
  }

  /** In any state and under any policy the step machine can do what a call that gets
      past its preparation does: the same phases, the same stop, the same table. */
  lemma ScriptIsARun(s: System, id: string, policy: Policy, script: Script) returns (run: seq<Step>)
    ensures var n, key, ok := |s.rotations|, (Server, id), Completion in Trail(script);
      && ValidRun(s, [Start(Server, id, None)] + run)
      && var begun, t := Do(s, Start(Server, id, None)), After(s, [Start(Server, id, None)] + run);
      && ValidRun(begun, run) && Trace(begun, run, n) == Trail(script)
      && |t.rotations| == n + 1 && t.rotations[..n] == s.rotations
      && (t.rotations[n].stoppedAt.Some? <==> ok)
      && t.active == if ok then s.active - {key} else s.active[key := n]
  {
    var n, start := |s.rotations|, Start(Server, id, None);
    run := FromPreparing(Do(Do(s, start), Begin(n, policy)), n, script);
    run := Preceded(Do(s, start), Begin(n, policy), run, n, Completion in Trail(script));
    assert ([start] + run)[1..] == run;
    assert s.active[(Server, id) := n] - {(Server, id)} == s.active - {(Server, id)};
  }

  class ServerPort {
    var stopped: bool

    constructor ()
      ensures !stopped
    {
      stopped := false;
    }

    method Stop()
      modifies this
      ensures stopped
    {
      stopped := true;
    }
  }

  class ContinuityServerPair {
    const oldServer: ServerPort
    var phase: Phase
    ghost var trail: seq<Phase>

    constructor (oldServer: ServerPort)
      ensures this.oldServer == oldServer && phase == Preparation && trail == [Preparation]
    {
      this.oldServer, phase, trail := oldServer, Preparation, [Preparation];
    }

    method SetPhase(phase: Phase)
      modifies this
      ensures this.phase == phase && trail == old(trail) + [phase]
    {
      this.phase := phase;
      trail := trail + [phase];
    }
  }

  class RotationContinuityService {
    var activeServers: map<string, ContinuityServerPair>

    constructor ()
      ensures activeServers == map[]
    {
      activeServers := map[];
    }

    /** The four phases; only the last one, reached without an error, stops the
        old server. */
    method ExecuteServerRotationPhases(pair: ContinuityServerPair, script: Script) returns (ok: bool)
      requires pair.phase == Preparation && pair.trail == [Preparation]
      modifies pair, pair.oldServer
      ensures ok <==> Completion in Trail(script)
      ensures pair.trail + (if ok then [] else [Failed]) == Trail(script)
      ensures pair.phase == pair.trail[|pair.trail| - 1]
      ensures pair.oldServer.stopped == (ok || old(pair.oldServer.stopped))
    {
      if script.prepWake.ContextEnded? {
        return false;
      }
      pair.SetPhase(Overlap);
      if !script.firstValid {
        return false;
      }
      if script.overlapWake.ContextEnded? {
        return false;
      }
      pair.SetPhase(Validation);
      if !script.secondValid {
        return false;
      }
      pair.SetPhase(Completion);
      pair.oldServer.Stop();
      return true;
    }

    /** Success removes the entry and has stopped the old server; a failure after
        registration leaves a Failed pair in the table and the old server as it
        was; an earlier failure changes nothing. */
    method RotateServerWithContinuity(serverID: string, oldServer: ServerPort, script: Script)
        returns (outcome: Outcome)
      modifies this, oldServer
      ensures !script.prepared ==> outcome == NotPrepared
      ensures script.prepared && !script.oldCert ==> outcome == NoCurrentCertificate
      ensures script.prepared && script.oldCert ==>
                outcome == if Completion in Trail(script) then Completed else RotationFailed
      ensures outcome == Completed ==> activeServers == old(activeServers) - {serverID} && oldServer.stopped
      ensures outcome != Completed ==> oldServer.stopped == old(oldServer.stopped)
      ensures outcome == RotationFailed ==>
        && activeServers.Keys == old(activeServers).Keys + {serverID}
        && activeServers - {serverID} == old(activeServers) - {serverID}
        && fresh(activeServers[serverID])
        && activeServers[serverID].oldServer == oldServer
        && activeServers[serverID].phase == Failed
        && activeServers[serverID].trail == Trail(script)
      ensures outcome == NotPrepared || outcome == NoCurrentCertificate ==> activeServers == old(activeServers)
    {
      if !script.prepared {
        return NotPrepared;
      }
      if !script.oldCert {
        return NoCurrentCertificate;
      }
      var pair := new ContinuityServerPair(oldServer);
      activeServers := activeServers[serverID := pair];
      var ok := ExecuteServerRotationPhases(pair, script);
      if !ok {
        pair.SetPhase(Failed);
        return RotationFailed;
      }
      activeServers := activeServers - {serverID};
      return Completed;
    }
  }
}
