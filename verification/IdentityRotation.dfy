/** The identity rotation service: forced, periodic and external rotations of one
    current SVID. Every operation holds the service's lock from start to end, so
    a run of the service is a sequence of whole operations. */
module IdentityRotation {
  import opened Common

  datatype Cert = Cert(serial: int, notBefore: Time, notAfter: Time)

  datatype Svid = Svid(certificates: seq<Cert>)

  function IsNewer(current: Svid, candidate: Svid): bool {
    if current.certificates == [] || candidate.certificates == [] then candidate.certificates != []
    else
      var c, d := current.certificates[0], candidate.certificates[0];
      d.notBefore > c.notBefore || (d.notBefore == c.notBefore && d.notAfter > c.notAfter)
  }

  datatype Op =
    | Start(fetched: Option<Option<Svid>>, trusted: bool)   // no value: the provider failed
    | Stop
    | Rotate(refreshed: bool, fetched: Option<Option<Svid>>, trusted: bool)
    | External(svid: Option<Svid>, trusted: bool)

  datatype Refusal = AlreadyRunning | NotRunning | RefreshFailed | FetchFailed | Invalid | NotNewer | NoCurrent

  datatype Outcome = Done | Refused(why: Refusal) | Panicked

  /** An installed SVID, and whether Start installed it. */
  datatype Commit = Commit(svid: Svid, byStart: bool)

  /** `commits` are all SVIDs installed so far; `told` the (old, new) pairs for
      which callbacks were launched. */
  datatype Service = Service(running: bool, stopClosed: bool, current: Option<Svid>,
                             commits: seq<Commit>, told: seq<(Option<Svid>, Svid)>)

  const INIT: Service := Service(false, false, None, [], [])

  /** A non-nil SVID with a leaf that the bundle provider vouches for. */
  predicate Valid(svid: Option<Svid>, trusted: bool) {
    svid.Some? && svid.value.certificates != [] && trusted
  }

  function Install(s: Service, svid: Svid): Service {
    s.(current := Some(svid), commits := s.commits + [Commit(svid, false)], told := s.told + [(s.current, svid)])
  }

  function Replace(s: Service, svid: Option<Svid>, trusted: bool): (Service, Outcome) {
    if !Valid(svid, trusted) then (s, Refused(Invalid))
    else if s.current.Some? && !IsNewer(s.current.value, svid.value) then (s, Refused(NotNewer))
    else (Install(s, svid.value), Done)
  }

  function Do(s: Service, op: Op): (Service, Outcome) {
    match op
    case Start(fetched, trusted) =>
      if s.running then (s, Refused(AlreadyRunning))
      else if fetched.None? then (s, Refused(FetchFailed))
      else if !Valid(fetched.value, trusted) then (s, Refused(Invalid))
      else
        var svid := fetched.value.value;
        (s.(running := true, current := Some(svid), commits := s.commits + [Commit(svid, true)]), Done)
    case Stop =>
      if !s.running then (s, Refused(NotRunning))
      else if s.stopClosed then (s, Panicked)     // closes a channel that is already closed
      else (s.(running := false, stopClosed := true), Done)
    case Rotate(refreshed, fetched, trusted) =>
      if !refreshed then (s, Refused(RefreshFailed))
      else if fetched.None? then (s, Refused(FetchFailed))
      else Replace(s, fetched.value, trusted)
    case External(svid, trusted) => Replace(s, svid, trusted)
  }

  ghost function Run(s: Service, ops: seq<Op>): Service {
    if ops == [] then s else Do(Run(s, ops[..|ops| - 1]), ops[|ops| - 1]).0
  }

  /** The lexicographic order on (NotBefore, NotAfter) of the leaf. */
  ghost predicate Older(a: Svid, b: Svid) {
    && a.certificates != [] && b.certificates != []
    && var c, d := a.certificates[0], b.certificates[0];
       c.notBefore < d.notBefore || (c.notBefore == d.notBefore && c.notAfter < d.notAfter)
  }

  /** The pairs callbacks should hear of: each commit other than a Start's, with
      the one before it. */
  ghost function Replacements(commits: seq<Commit>): seq<(Option<Svid>, Svid)> {
    if commits == [] then []
    else
      var n := |commits| - 1;
      Replacements(commits[..n]) +
      if commits[n].byStart then []
      else [(if n == 0 then None else Some(commits[n - 1].svid), commits[n].svid)]
  }

  ghost predicate Rising(commits: seq<Commit>) {
    forall i :: 0 < i < |commits| && !commits[i].byStart ==> Older(commits[i - 1].svid, commits[i].svid)
  }

  ghost predicate Consistent(s: Service) {
    && s.current == (if s.commits == [] then None else Some(s.commits[|s.commits| - 1].svid))
    && (forall i :: 0 <= i < |s.commits| ==> s.commits[i].svid.certificates != [])
    && Rising(s.commits)
    && s.told == Replacements(s.commits)
  }

  lemma {:induction false} RisingAppend(commits: seq<Commit>, c: Commit)
    requires Rising(commits)
    requires !c.byStart && commits != [] ==> Older(commits[|commits| - 1].svid, c.svid)
    ensures Rising(commits + [c])
  {
    var more := commits + [c];
    forall i | 0 < i < |more| && !more[i].byStart ensures Older(more[i - 1].svid, more[i].svid) {
      assert i < |commits| ==> more[i] == commits[i];
      assert more[i - 1] == commits[i - 1];
    }
  }

  lemma {:induction false} ReplacementsAppend(commits: seq<Commit>, c: Commit)
    ensures Replacements(commits + [c]) == Replacements(commits) +
            if c.byStart then []
            else [(if commits == [] then None else Some(commits[|commits| - 1].svid), c.svid)]
  {
    assert (commits + [c])[..|commits|] == commits;
  }

  lemma CommitKeepsConsistent(s: Service, t: Service, c: Commit)
    requires Consistent(s) && t.commits == s.commits + [c] && t.current == Some(c.svid)
    requires c.svid.certificates != []
    requires !c.byStart && s.current.Some? ==> Older(s.current.value, c.svid)
    requires t.told == s.told + if c.byStart then [] else [(s.current, c.svid)]
    ensures Consistent(t)
  {
    RisingAppend(s.commits, c);
    ReplacementsAppend(s.commits, c);
  }

  lemma {:induction false} OpKeepsConsistent(s: Service, op: Op)
    requires Consistent(s)
    ensures Consistent(Do(s, op).0)
    ensures Do(s, op).1 != Done ==> Do(s, op).0 == s
  {
    var t := Do(s, op).0;
    if |t.commits| > |s.commits| {
      CommitKeepsConsistent(s, t, t.commits[|s.commits|]);
    }
  }

  lemma {:induction false} RunKeepsConsistent(ops: seq<Op>)
    ensures Consistent(Run(INIT, ops))
  {
    if ops != [] {
      RunKeepsConsistent(ops[..|ops| - 1]);
      OpKeepsConsistent(Run(INIT, ops[..|ops| - 1]), ops[|ops| - 1]);
    }
  }

  /** No Start between the i-th and the j-th commit. */
  ghost predicate SameEpoch(commits: seq<Commit>, i: nat, j: nat)
    requires i <= j < |commits|
  {
    forall k :: i < k <= j ==> !commits[k].byStart
  }

  lemma {:induction false} RisingIsTransitive(commits: seq<Commit>, i: nat, j: nat)
    requires Rising(commits) && i < j < |commits| && SameEpoch(commits, i, j)
    ensures Older(commits[i].svid, commits[j].svid)
  {
    if i < j - 1 {
      RisingIsTransitive(commits, i, j - 1);
    }
  }

  /** Between two Starts the installed SVIDs strictly increase, so none is
      installed twice. */
  lemma InstalledSvidsIncrease(ops: seq<Op>, i: nat, j: nat)
    requires i < j < |Run(INIT, ops).commits| && SameEpoch(Run(INIT, ops).commits, i, j)
    ensures var commits := Run(INIT, ops).commits;
      Older(commits[i].svid, commits[j].svid) && commits[i].svid != commits[j].svid
  {
    RunKeepsConsistent(ops);
    RisingIsTransitive(Run(INIT, ops).commits, i, j);
  }

  /** Callbacks hear exactly the replacements, in order. */
  lemma CallbacksHearReplacements(ops: seq<Op>)
    ensures Run(INIT, ops).told == Replacements(Run(INIT, ops).commits)
    ensures Run(INIT, ops).current.Some? <==> Run(INIT, ops).commits != []
  {
    RunKeepsConsistent(ops);
  }

  // ---- What is installed -------------------------------------------------------------

  /** The operation brings a trusted SVID with a leaf. */
  ghost predicate Offers(op: Op, b: Svid) {
    b.certificates != [] && (op == Rotate(true, Some(Some(b)), true) || op == External(Some(b), true))
  }

  /** A rotation or an external SVID succeeds if and only if it offers one and there is
      no current SVID with a leaf or an older one; it then installs and announces
      exactly that, and running or not is as before. */
  lemma ReplacesIff(s: Service, op: Op)
    requires op.Rotate? || op.External?
    ensures Do(s, op).1 == Done <==>
            exists b :: Offers(op, b) &&
                        (s.current.None? || s.current.value.certificates == [] || Older(s.current.value, b))
    ensures forall b :: Offers(op, b) && Do(s, op).1 == Done ==>
              Do(s, op).0 == Service(s.running, s.stopClosed, Some(b), s.commits + [Commit(b, false)],
                                     s.told + [(s.current, b)])
  {
    if Do(s, op).1 == Done {
      var b := if op.Rotate? then op.fetched.value.value else op.svid.value;
      assert Offers(op, b);
    }
  }

  /** Start and Stop succeed exactly in the state they are for, Start also only with a
      trusted SVID that has a leaf, and then install it, newer or not. */
  lemma StartsAndStopsIff(s: Service, fetched: Option<Option<Svid>>, trusted: bool)
    ensures Do(s, Start(fetched, trusted)).1 == Done <==>
            !s.running && trusted && exists b: Svid :: fetched == Some(Some(b)) && b.certificates != []
    ensures forall b: Svid :: fetched == Some(Some(b)) && Do(s, Start(fetched, trusted)).1 == Done ==>
              Do(s, Start(fetched, trusted)).0 ==
              Service(true, s.stopClosed, Some(b), s.commits + [Commit(b, true)], s.told)
    ensures Do(s, Stop).1 == Done <==> s.running && !s.stopClosed
    ensures Do(s, Stop).1 == Panicked <==> s.running && s.stopClosed
    ensures Do(s, Stop).1 == Done ==> Do(s, Stop).0 == s.(running := false, stopClosed := true)
  {
    if Do(s, Start(fetched, trusted)).1 == Done {
      assert fetched == Some(Some(fetched.value.value));
    }
  }

  /** Which refusal is reported: the first thing that is wrong. */
  lemma RefusedWhy(s: Service, op: Op, why: Refusal)
    requires Do(s, op).1 == Refused(why)
    ensures match why
      case AlreadyRunning => op.Start? && s.running
      case NotRunning => op == Stop && !s.running
      case RefreshFailed => op.Rotate? && !op.refreshed
      case FetchFailed => (op.Start? && !s.running && op.fetched.None?)
                          || (op.Rotate? && op.refreshed && op.fetched.None?)
      case Invalid => !op.Stop? && (!op.trusted || forall b :: !Offers(op, b))
                      && (op.Start? ==> !s.running && op.fetched.Some?)
                      && (op.Rotate? ==> op.refreshed && op.fetched.Some?)
      case NotNewer => s.current.Some? && exists b :: Offers(op, b) && !Older(s.current.value, b)
      case NoCurrent => false
  {
    if why == NotNewer {
      var b := if op.Rotate? then op.fetched.value.value else op.svid.value;
      assert Offers(op, b);
    }
  }

  ghost predicate HoldsLeaf(s: Service) {
    s.current.Some? && s.current.value.certificates != []
  }

  /** One operation other than Start moves the current SVID to the newer one of itself
      and what is offered. */
  lemma TakesTheNewer(s: Service, op: Op)
    requires HoldsLeaf(s) && !op.Start?
    ensures HoldsLeaf(Do(s, op).0)
    ensures var was, now := s.current.value, Do(s, op).0.current.value;
      && !Older(now, was)
      && (forall b :: Offers(op, b) ==> !Older(now, b))
      && (now == was || Offers(op, now))
  {
    if op.Rotate? || op.External? {
      ReplacesIff(s, op);
    }
  }

  /** Older is a strict weak order on SVIDs with a leaf. */
  lemma NotOlderIsTransitive(a: Svid, b: Svid, c: Svid)
    requires a.certificates != [] && b.certificates != [] && c.certificates != []
    requires !Older(b, a) && !Older(c, b)
    ensures !Older(c, a)
  {
  }

  /** Without a Start in between, the current SVID is at all times the newest of the one
      held at first and all trusted ones offered since, whatever else happened. */
  lemma {:induction false} NewestOfferedIsCurrent(s: Service, ops: seq<Op>)
    requires HoldsLeaf(s) && forall i :: 0 <= i < |ops| ==> !ops[i].Start?
    ensures HoldsLeaf(Run(s, ops))
    ensures var now := Run(s, ops).current.value;
      && !Older(now, s.current.value)
      && (forall i, b :: 0 <= i < |ops| && Offers(ops[i], b) ==> !Older(now, b))
      && (now == s.current.value || exists i :: 0 <= i < |ops| && Offers(ops[i], now))
  {
    if ops != [] {
      var n := |ops| - 1;
      NewestOfferedIsCurrent(s, ops[..n]);
      var t := Run(s, ops[..n]);
      var was, now := t.current.value, Run(s, ops).current.value;
      TakesTheNewer(t, ops[n]);
      NotOlderIsTransitive(s.current.value, was, now);
      forall i, b | 0 <= i < |ops| && Offers(ops[i], b) ensures !Older(now, b) {
        if i < n {
          assert ops[..n][i] == ops[i];
          NotOlderIsTransitive(b, was, now);
        }
      }
      if now == was && was != s.current.value {
        var i :| 0 <= i < n && Offers(ops[..n][i], was);
        assert Offers(ops[i], now);
      }
    }
  }

  /** Start checks no order: a restart may go back in time. */
  lemma RestartMayGoBack(newer: Svid, older: Svid)
    requires Older(older, newer)
    ensures var s := Run(INIT, [Start(Some(Some(newer)), true), Stop, Start(Some(Some(older)), true)]);
      |s.commits| == 2 && Older(s.commits[1].svid, s.commits[0].svid)
  {
    var ops := [Start(Some(Some(newer)), true), Stop, Start(Some(Some(older)), true)];
    assert ops[..2][..1][..0] == [];
    assert ops[..2][..1][0] == Start(Some(Some(newer)), true);
    assert ops[..2][1] == Stop;
    assert Run(INIT, ops[..2][..1]) == Service(true, false, Some(newer), [Commit(newer, true)], []);
    assert Run(INIT, ops[..2]) == Service(false, true, Some(newer), [Commit(newer, true)], []);
  }

  ghost predicate Increasing(commits: seq<Commit>) {
    forall i, j :: 0 <= i < j < |commits| ==> Older(commits[i].svid, commits[j].svid)
  }

  /** Every Start fetched an SVID newer than the current one. */
  ghost predicate StartsForward(commits: seq<Commit>) {
    forall i :: 0 < i < |commits| && commits[i].byStart ==> Older(commits[i - 1].svid, commits[i].svid)
  }

  lemma {:induction false} StepwiseIncreases(commits: seq<Commit>, i: nat, j: nat)
    requires i < j < |commits| && Rising(commits) && StartsForward(commits)
    ensures Older(commits[i].svid, commits[j].svid)
  {
    assert Older(commits[j - 1].svid, commits[j].svid);
    if i < j - 1 {
      StepwiseIncreases(commits, i, j - 1);
    }
  }

  /** Over a whole run, restarts included, the installed SVIDs strictly increase if
      and only if every Start moved forward, the one check Start does not make. */
  lemma IncreasingIffStartsForward(ops: seq<Op>)
    ensures Increasing(Run(INIT, ops).commits) <==> StartsForward(Run(INIT, ops).commits)
  {
    RunKeepsConsistent(ops);
    var commits := Run(INIT, ops).commits;
    if StartsForward(commits) {
      forall i, j | 0 <= i < j < |commits| ensures Older(commits[i].svid, commits[j].svid) {
        StepwiseIncreases(commits, i, j);
      }
    }
  }

  /** The stop channel is never made anew: once it is closed, stopping a restarted
      service panics. */
  lemma {:induction false} StopSucceedsOnce(s: Service, ops: seq<Op>)
    requires s.stopClosed
    ensures Run(s, ops).stopClosed
    ensures Do(Run(s, ops), Stop).1 == if Run(s, ops).running then Panicked else Refused(NotRunning)
  {
    if ops != [] {
      StopSucceedsOnce(s, ops[..|ops| - 1]);
    }
  }

  ghost function OutcomeAt(ops: seq<Op>, i: nat): Outcome
    requires i < |ops|
  {
    Do(Run(INIT, ops[..i]), ops[i]).1
  }

  lemma {:induction false} RunSplits(s: Service, a: seq<Op>, b: seq<Op>)
    ensures Run(s, a + b) == Run(Run(s, a), b)
  {
    if b == [] {
      assert a + b == a;
    } else {
      RunSplits(s, a, b[..|b| - 1]);
      assert (a + b)[..|a + b| - 1] == a + b[..|b| - 1];
    }
  }

  lemma StopClosesChannel(s: Service)
    requires Do(s, Stop).1 == Done
    ensures Do(s, Stop).0.stopClosed && !Do(s, Stop).0.running
  {
  }

  /** At most one Stop of any run succeeds. */
  lemma OneStopSucceeds(ops: seq<Op>, i: nat, j: nat)
    requires i < j < |ops| && ops[i] == Stop && ops[j] == Stop && OutcomeAt(ops, i) == Done
    ensures OutcomeAt(ops, j) != Done
  {
    var stopped, between := Run(INIT, ops[..i + 1]), ops[i + 1..j];
    assert ops[..i + 1][..i] == ops[..i];
    assert ops[..i + 1] + between == ops[..j];
    RunSplits(INIT, ops[..i + 1], between);
    StopClosesChannel(Run(INIT, ops[..i]));
    StopSucceedsOnce(stopped, between);
  }

  ghost function Starts(commits: seq<Commit>): nat {
    if commits == [] then 0
    else Starts(commits[..|commits| - 1]) + if commits[|commits| - 1].byStart then 1 else 0
  }

  lemma {:induction false} StartsAppend(commits: seq<Commit>, c: Commit)
    ensures Starts(commits + [c]) == Starts(commits) + if c.byStart then 1 else 0
  {
    assert (commits + [c])[..|commits|] == commits;
  }

  ghost predicate StartsCounted(s: Service) {
    Starts(s.commits) == (if s.stopClosed then 1 else 0) + (if s.running then 1 else 0)
  }

  lemma {:induction false} OpKeepsStartsCounted(s: Service, op: Op)
    requires StartsCounted(s)
    ensures StartsCounted(Do(s, op).0)
  {
    var t := Do(s, op).0;
    if |t.commits| > |s.commits| {
      StartsAppend(s.commits, t.commits[|s.commits|]);
    }
  }

  /** So at most two Starts ever install an SVID: one before it, one after. */
  lemma {:induction false} AtMostTwoStarts(ops: seq<Op>)
    ensures StartsCounted(Run(INIT, ops)) && Starts(Run(INIT, ops).commits) <= 2
  {
    if ops != [] {
      AtMostTwoStarts(ops[..|ops| - 1]);
      OpKeepsStartsCounted(Run(INIT, ops[..|ops| - 1]), ops[|ops| - 1]);
    }
  }

  class IdentityRotationService {
    const rotationThreshold: Time
    var isRunning: bool
    var stopClosed: bool
    var currentSVID: Option<Svid>
    ghost var commits: seq<Commit>
    ghost var told: seq<(Option<Svid>, Svid)>

    ghost function View(): Service
      reads this
    {
      Service(isRunning, stopClosed, currentSVID, commits, told)
    }

    constructor (rotationThreshold: Time)
      ensures View() == INIT && this.rotationThreshold == rotationThreshold
    {
      this.rotationThreshold := rotationThreshold;
      isRunning, stopClosed, currentSVID, commits, told := false, false, None, [], [];
    }

    method StartService(fetched: Option<Option<Svid>>, trusted: bool) returns (outcome: Outcome)
      modifies this
      ensures (View(), outcome) == Do(old(View()), Start(fetched, trusted))
    {
      if isRunning {
        return Refused(AlreadyRunning);
      }
      if fetched.None? {
        return Refused(FetchFailed);
      }
      if !Valid(fetched.value, trusted) {
        return Refused(Invalid);
      }
      currentSVID := fetched.value;
      commits := commits + [Commit(fetched.value.value, true)];
      isRunning := true;
      return Done;
    }

    method StopService() returns (outcome: Outcome)
      modifies this
      ensures (View(), outcome) == Do(old(View()), Stop)
    {
      if !isRunning {
        return Refused(NotRunning);
      }
      if stopClosed {
        return Panicked;
      }
      stopClosed := true;
      isRunning := false;
      return Done;
    }

    method RotateIdentity(refreshed: bool, fetched: Option<Option<Svid>>, trusted: bool) returns (outcome: Outcome)
      modifies this
      ensures (View(), outcome) == Do(old(View()), Rotate(refreshed, fetched, trusted))
      ensures outcome == Done <==>
        && refreshed && trusted && fetched.Some? && fetched.value.Some? && fetched.value.value.certificates != []
        && (old(currentSVID).None? || old(currentSVID).value.certificates == []
            || Older(old(currentSVID).value, fetched.value.value))
      ensures currentSVID == if outcome == Done then fetched.value else old(currentSVID)
    {
      var oldSVID := currentSVID;
      if !refreshed {
        return Refused(RefreshFailed);
      }
      if fetched.None? {
        return Refused(FetchFailed);
      }
      var newSVID := fetched.value;
      if !Valid(newSVID, trusted) {
        return Refused(Invalid);
      }
      if oldSVID.Some? && !IsNewer(oldSVID.value, newSVID.value) {
        return Refused(NotNewer);
      }
      currentSVID := newSVID;
      commits, told := commits + [Commit(newSVID.value, false)], told + [(oldSVID, newSVID.value)];
      return Done;
    }

    method HandleExternalRotation(newSVID: Option<Svid>, trusted: bool) returns (outcome: Outcome)
      modifies this
      ensures (View(), outcome) == Do(old(View()), External(newSVID, trusted))
      ensures outcome == Done <==>
        && trusted && newSVID.Some? && newSVID.value.certificates != []
        && (old(currentSVID).None? || old(currentSVID).value.certificates == []
            || Older(old(currentSVID).value, newSVID.value))
      ensures currentSVID == if outcome == Done then newSVID else old(currentSVID)
    {
      if !Valid(newSVID, trusted) {
        return Refused(Invalid);
      }
      var oldSVID := currentSVID;
      if oldSVID.Some? && !IsNewer(oldSVID.value, newSVID.value) {
        return Refused(NotNewer);
      }
      currentSVID := newSVID;
      commits, told := commits + [Commit(newSVID.value, false)], told + [(oldSVID, newSVID.value)];
      return Done;
    }

    /** The periodic check rotates exactly when the leaf expires within the
        threshold; no outcome means it had nothing to do. */
    method CheckAndRotateIfNeeded(now: Time, refreshed: bool, fetched: Option<Option<Svid>>, trusted: bool)
      returns (outcome: Option<Outcome>)
      modifies this
      ensures old(currentSVID).None? ==> outcome == Some(Refused(NoCurrent)) && View() == old(View())
      ensures old(currentSVID).Some? ==>
        var due := old(currentSVID).value.certificates != [] &&
                   old(currentSVID).value.certificates[0].notAfter < now + rotationThreshold;
        && (!due ==> outcome.None? && View() == old(View()))
        && (due ==> outcome.Some? && (View(), outcome.value) == Do(old(View()), Rotate(refreshed, fetched, trusted)))
    {
      if currentSVID.None? {
        return Some(Refused(NoCurrent));
      }
      var current := currentSVID.value;
      if |current.certificates| > 0 {
        if current.certificates[0].notAfter - now < rotationThreshold {
          var o := RotateIdentity(refreshed, fetched, trusted);
          return Some(o);
        }
      }
      return None;
    }
  }
}
