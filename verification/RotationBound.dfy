/** How old a certificate can get under the monitor's checks, and how that
    bound meets the one-hour clause of the rotation invariant. */
module RotationBound {
  import opened Common
  import opened Connections

  /** One tick of the monitor; `fetched` is the certificate a rotation would get. */
  datatype Tick = Tick(at: Time, fetched: Option<Certificate>)

  /** checkAndRotateConnection with an instantaneous rotation. */
  function Check(conn: Conn, policy: RotationPolicy, tick: Tick): Conn {
    if conn.state == Closed || DetermineRotationReason(conn, policy, tick.at).None? then conn
    else if tick.fetched.None? then conn.(state := Failed)
    else conn.(state := Active, lastRotated := tick.at, cert := tick.fetched)
  }

  /** That is what a tick does to a registered connection. */
  lemma CheckIsOneTick(reg: Registry, id: string, policy: RotationPolicy, tick: Tick)
    requires reg.Valid() && id in reg.connections
    ensures var o := reg.connections[id]; var conn := reg.objects[o];
      && var due := DetermineRotationReason(conn, policy, tick.at).Some?;
         (if due then reg.Rotate(id, tick.fetched, tick.at) else reg) ==
         reg.(objects := reg.objects[o := Check(conn, policy, tick)])
  {
    var o := reg.connections[id];
    assert reg.objects[o := reg.objects[o]] == reg.objects;
  }

  function Attempts(conn: Conn, policy: RotationPolicy, tick: Tick): bool {
    conn.state != Closed && DetermineRotationReason(conn, policy, tick.at).Some?
  }

  ghost function Monitored(conn: Conn, policy: RotationPolicy, ticks: seq<Tick>): Conn {
    if ticks == [] then conn
    else Check(Monitored(conn, policy, ticks[..|ticks| - 1]), policy, ticks[|ticks| - 1])
  }

  /** The length of the current streak of failed rotations. */
  ghost function Streak(conn: Conn, policy: RotationPolicy, ticks: seq<Tick>): nat {
    if ticks == [] then 0
    else
      var before := Monitored(conn, policy, ticks[..|ticks| - 1]);
      var tick := ticks[|ticks| - 1];
      if !Attempts(before, policy, tick) then Streak(conn, policy, ticks[..|ticks| - 1])
      else if tick.fetched.None? then Streak(conn, policy, ticks[..|ticks| - 1]) + 1
      else 0
  }

  ghost function LastCheck(start: Time, ticks: seq<Tick>): Time {
    if ticks == [] then start else ticks[|ticks| - 1].at
  }

  /** Ticks move forward, at most `gap` apart, the first within `gap` of `start`. */
  ghost predicate Paced(start: Time, gap: Time, ticks: seq<Tick>) {
    ticks != [] ==>
      && Paced(start, gap, ticks[..|ticks| - 1])
      && LastCheck(start, ticks[..|ticks| - 1]) <= ticks[|ticks| - 1].at <= LastCheck(start, ticks[..|ticks| - 1]) + gap
  }

  /** No streak of failures along the run is longer than `k`. */
  ghost predicate Tolerable(conn: Conn, policy: RotationPolicy, ticks: seq<Tick>, k: nat) {
    Streak(conn, policy, ticks) <= k && (ticks != [] ==> Tolerable(conn, policy, ticks[..|ticks| - 1], k))
  }

  lemma {:induction false} AgeAtLastCheck(conn: Conn, policy: RotationPolicy, gap: Time, ticks: seq<Tick>)
    requires conn.state == Active && policy.forceRotationInterval > 0 && gap >= 0
    requires Paced(conn.lastRotated, gap, ticks)
    ensures var now := Monitored(conn, policy, ticks); var streak := Streak(conn, policy, ticks);
      && LastCheck(conn.lastRotated, ticks) - now.lastRotated < policy.forceRotationInterval + streak * gap
      && now.lastRotated <= LastCheck(conn.lastRotated, ticks)
      && (streak > 0 ==> now.state == Failed) && now.state != Closed
  {
    if ticks != [] {
      var earlier := ticks[..|ticks| - 1];
      AgeAtLastCheck(conn, policy, gap, earlier);
      var streak := Streak(conn, policy, earlier);
      assert (streak + 1) * gap == streak * gap + gap;
    }
  }

  lemma GapsMonotone(m: nat, n: nat, gap: Time)
    requires m <= n && gap >= 0
    ensures m * gap <= n * gap && (n + 1) * gap == n * gap + gap
  {
  }

  /** Between two checks, with at most `k` rotations failing in a row, the
      certificate in use is younger than the forced interval plus k + 1 gaps. */
  lemma AgeBound(conn: Conn, policy: RotationPolicy, gap: Time, ticks: seq<Tick>, k: nat, now: Time)
    requires conn.state == Active && policy.forceRotationInterval > 0 && gap >= 0
    requires Paced(conn.lastRotated, gap, ticks) && Tolerable(conn, policy, ticks, k)
    requires LastCheck(conn.lastRotated, ticks) <= now <= LastCheck(conn.lastRotated, ticks) + gap
    ensures now - Monitored(conn, policy, ticks).lastRotated < policy.forceRotationInterval + (k + 1) * gap
  {
    AgeAtLastCheck(conn, policy, gap, ticks);
    GapsMonotone(Streak(conn, policy, ticks), k, gap);
  }

  const MAX_CONNECTION_AGE: Time := HOUR

  /** With the default policy and one check a minute, the one-hour clause cannot
      fire before the thirtieth failure in a row. */
  lemma DefaultsKeepRotationInvariant(conn: Conn, ticks: seq<Tick>, k: nat, now: Time)
    requires conn.state == Active && k <= 29
    requires Paced(conn.lastRotated, MINUTE, ticks) && Tolerable(conn, DEFAULT_ROTATION_POLICY, ticks, k)
    requires LastCheck(conn.lastRotated, ticks) <= now <= LastCheck(conn.lastRotated, ticks) + MINUTE
    ensures now - Monitored(conn, DEFAULT_ROTATION_POLICY, ticks).lastRotated <= MAX_CONNECTION_AGE
  {
    AgeBound(conn, DEFAULT_ROTATION_POLICY, MINUTE, ticks, k, now);
  }

  // ---- The bound is the best possible ---------------------------------------

  ghost function After(first: Time, gap: Time, n: nat): Time {
    if n == 0 then first else After(first, gap, n - 1) + gap
  }

  lemma {:induction false} AfterIsLinear(first: Time, gap: Time, n: nat)
    ensures After(first, gap, n) == first + n * gap
  {
    if n > 0 {
      AfterIsLinear(first, gap, n - 1);
      assert n * gap == (n - 1) * gap + gap;
    }
  }

  lemma {:induction false} AfterIncreases(first: Time, gap: Time, m: nat, n: nat)
    requires gap >= 1 && m < n
    ensures After(first, gap, m) + gap <= After(first, gap, n)
  {
    if m < n - 1 {
      AfterIncreases(first, gap, m, n - 1);
    }
  }

  /** Failing ticks one gap apart, from `first` to n gaps later. */
  ghost function Train(first: Time, gap: Time, n: nat): (train: seq<Tick>)
    ensures train != [] && train[|train| - 1] == Tick(After(first, gap, n), None)
  {
    (if n == 0 then [] else Train(first, gap, n - 1)) + [Tick(After(first, gap, n), None)]
  }

  lemma {:induction false} TrainPaced(start: Time, first: Time, gap: Time, n: nat)
    requires gap >= 0 && start <= first <= start + gap
    ensures Paced(start, gap, Train(first, gap, n))
  {
    var earlier := [];
    if n > 0 {
      TrainPaced(start, first, gap, n - 1);
      earlier := Train(first, gap, n - 1);
    }
    var tick := Tick(After(first, gap, n), None);
    assert (earlier + [tick])[..|earlier|] == earlier;
  }

  /** The certificate in use is not what makes a rotation due by `last`. */
  predicate CertLasts(conn: Conn, policy: RotationPolicy, last: Time) {
    conn.cert.Some? ==> last + policy.preRotationThreshold < conn.cert.value.notAfter
  }

  lemma FailingTick(conn: Conn, policy: RotationPolicy, tick: Tick)
    requires conn.state == Active || conn.state == Failed
    requires CertLasts(conn, policy, tick.at) && tick.fetched.None?
    ensures Attempts(conn, policy, tick) <==>
            conn.state == Failed || tick.at >= conn.lastRotated + policy.forceRotationInterval
    ensures Check(conn, policy, tick) == if Attempts(conn, policy, tick) then conn.(state := Failed) else conn
  {
  }

  lemma {:induction false} TolerableMonotone(conn: Conn, policy: RotationPolicy, ticks: seq<Tick>, k: nat, more: nat)
    requires Tolerable(conn, policy, ticks, k) && k <= more
    ensures Tolerable(conn, policy, ticks, more)
    decreases |ticks|
  {
    if ticks != [] {
      TolerableMonotone(conn, policy, ticks[..|ticks| - 1], k, more);
    }
  }

  ghost function Failures(quiet: nat, n: nat): nat {
    if n <= quiet then 0 else n - quiet
  }

  /** One more tick that brings no certificate. */
  lemma AppendFailingTick(conn: Conn, policy: RotationPolicy, ticks: seq<Tick>, tick: Tick, k: nat)
    requires tick.fetched.None? && CertLasts(Monitored(conn, policy, ticks), policy, tick.at)
    requires Monitored(conn, policy, ticks).state == Active || Monitored(conn, policy, ticks).state == Failed
    requires Tolerable(conn, policy, ticks, k)
    ensures var now := Monitored(conn, policy, ticks);
      var late := now.state == Failed || tick.at >= now.lastRotated + policy.forceRotationInterval;
      && Monitored(conn, policy, ticks + [tick]) == (if late then now.(state := Failed) else now)
      && Streak(conn, policy, ticks + [tick]) == Streak(conn, policy, ticks) + (if late then 1 else 0)
      && (Streak(conn, policy, ticks + [tick]) <= k ==> Tolerable(conn, policy, ticks + [tick], k))
  {
    assert (ticks + [tick])[..|ticks|] == ticks;
    FailingTick(Monitored(conn, policy, ticks), policy, tick);
  }

  /** Ticks of the train up to the `quiet`-th come before the forced interval. */
  lemma TrainTimes(first: Time, gap: Time, quiet: nat, n: nat, due: Time)
    requires gap >= 1 && After(first, gap, quiet) == due - 1
    ensures After(first, gap, n) >= due <==> n > quiet
  {
    if n < quiet {
      AfterIncreases(first, gap, n, quiet);
    } else if n > quiet {
      AfterIncreases(first, gap, quiet, n);
    }
  }

  /** So they change nothing, and each later tick fails. */
  lemma {:induction false} TrainFails(conn: Conn, policy: RotationPolicy, first: Time, gap: Time, quiet: nat, n: nat)
    requires conn.state == Active && CertLasts(conn, policy, After(first, gap, n)) && gap >= 1
    requires After(first, gap, quiet) == conn.lastRotated + policy.forceRotationInterval - 1
    ensures var train := Train(first, gap, n);
      && Monitored(conn, policy, train) == conn.(state := if n <= quiet then Active else Failed)
      && Streak(conn, policy, train) == Failures(quiet, n)
      && Tolerable(conn, policy, train, Failures(quiet, n))
  {
    TrainTimes(first, gap, quiet, n, conn.lastRotated + policy.forceRotationInterval);
    var earlier := [];
    if n > 0 {
      earlier := Train(first, gap, n - 1);
      AfterIncreases(first, gap, n - 1, n);
      TrainFails(conn, policy, first, gap, quiet, n - 1);
      TolerableMonotone(conn, policy, earlier, Failures(quiet, n - 1), Failures(quiet, n));
    }
    AppendFailingTick(conn, policy, earlier, Tick(After(first, gap, n), None), Failures(quiet, n));
  }

  /** A run of failures that ages a connection to one nanosecond below the bound. */
  lemma TightWhileCertLasts(conn: Conn, policy: RotationPolicy, gap: Time, k: nat) returns (ticks: seq<Tick>, now: Time)
    requires conn.state == Active && policy.forceRotationInterval > 0 && gap >= 1
    requires CertLasts(conn, policy, conn.lastRotated + policy.forceRotationInterval + k * gap)
    ensures Paced(conn.lastRotated, gap, ticks) && Tolerable(conn, policy, ticks, k)
    ensures LastCheck(conn.lastRotated, ticks) <= now <= LastCheck(conn.lastRotated, ticks) + gap
    ensures now - Monitored(conn, policy, ticks).lastRotated == policy.forceRotationInterval + (k + 1) * gap - 1
  {
    var quiet, rest := Divide(policy.forceRotationInterval - 1, gap);
    var first := conn.lastRotated + rest;
    AfterIsLinear(first, gap, quiet);
    AfterIsLinear(first, gap, quiet + k);
    AfterIsLinear(first, gap, quiet + k + 1);
    Distribute(quiet, k, gap);
    Distribute(quiet, k + 1, gap);
    TrainPaced(conn.lastRotated, first, gap, quiet + k);
    TrainFails(conn, policy, first, gap, quiet, quiet + k);
    ticks, now := Train(first, gap, quiet + k), After(first, gap, quiet + k + 1);
  }

  lemma {:induction false} AppendTick(conn: Conn, policy: RotationPolicy, start: Time, ticks: seq<Tick>, tick: Tick)
    ensures var more := ticks + [tick]; var now := Monitored(conn, policy, ticks);
      && Monitored(conn, policy, more) == Check(now, policy, tick)
      && LastCheck(start, more) == tick.at
      && (tick.fetched.Some? && Streak(conn, policy, ticks) == 0 ==> Streak(conn, policy, more) == 0)
      && (Tolerable(conn, policy, ticks, 0) && Streak(conn, policy, more) == 0 ==> Tolerable(conn, policy, more, 0))
  {
    assert (ticks + [tick])[..|ticks|] == ticks;
  }

  lemma {:induction false} PacedAppend(start: Time, gap: Time, ticks: seq<Tick>, tick: Tick)
    requires Paced(start, gap, ticks) && LastCheck(start, ticks) <= tick.at <= LastCheck(start, ticks) + gap
    ensures Paced(start, gap, ticks + [tick])
  {
    assert (ticks + [tick])[..|ticks|] == ticks;
  }

  /** Whatever certificate a connection starts with, checks at full gaps replace it
      at the first one that finds a reason. */
  lemma RotateFirst(conn: Conn, policy: RotationPolicy, gap: Time, fetched: Certificate) returns (ticks: seq<Tick>)
    requires conn.state == Active && policy.forceRotationInterval > 0 && gap >= 1
    ensures Paced(conn.lastRotated, gap, ticks) && Tolerable(conn, policy, ticks, 0) && Streak(conn, policy, ticks) == 0
    ensures var last := LastCheck(conn.lastRotated, ticks);
      && Monitored(conn, policy, ticks) == conn.(lastRotated := last, cert := Some(fetched))
      && last < conn.lastRotated + policy.forceRotationInterval + gap
  {
    var start := conn.lastRotated;
    ticks := [];
    var at := start;
    while DetermineRotationReason(conn, policy, at + gap).None?
      invariant Paced(start, gap, ticks) && LastCheck(start, ticks) == at
      invariant Monitored(conn, policy, ticks) == conn
      invariant Streak(conn, policy, ticks) == 0 && Tolerable(conn, policy, ticks, 0)
      invariant at < start + policy.forceRotationInterval
      decreases start + policy.forceRotationInterval - at
    {
      AppendTick(conn, policy, start, ticks, Tick(at + gap, Some(fetched)));
      PacedAppend(start, gap, ticks, Tick(at + gap, Some(fetched)));
      ticks, at := ticks + [Tick(at + gap, Some(fetched))], at + gap;
    }
    AppendTick(conn, policy, start, ticks, Tick(at + gap, Some(fetched)));
    PacedAppend(start, gap, ticks, Tick(at + gap, Some(fetched)));
    ticks := ticks + [Tick(at + gap, Some(fetched))];
  }

  lemma {:induction false} RunsOn(conn: Conn, policy: RotationPolicy, gap: Time, a: seq<Tick>, b: seq<Tick>, k: nat)
    requires Paced(conn.lastRotated, gap, a) && Tolerable(conn, policy, a, 0) && Streak(conn, policy, a) == 0
    requires var mid := Monitored(conn, policy, a);
      Paced(LastCheck(conn.lastRotated, a), gap, b) && Tolerable(mid, policy, b, k)
    ensures Paced(conn.lastRotated, gap, a + b) && Tolerable(conn, policy, a + b, k)
    ensures LastCheck(conn.lastRotated, a + b) == LastCheck(LastCheck(conn.lastRotated, a), b)
    ensures Monitored(conn, policy, a + b) == Monitored(Monitored(conn, policy, a), policy, b)
    ensures Streak(conn, policy, a + b) == Streak(Monitored(conn, policy, a), policy, b)
    decreases |b|
  {
    if b == [] {
      assert a + b == a;
      TolerableMonotone(conn, policy, a, 0, k);
    } else {
      RunsOn(conn, policy, gap, a, b[..|b| - 1], k);
      assert (a + b)[..|a + b| - 1] == a + b[..|b| - 1];
    }
  }

  /** For every active connection, with whatever certificate, and every policy, pace
      and tolerance some run ages to one nanosecond below the bound. */
  lemma AgeBoundIsTight(conn: Conn, policy: RotationPolicy, gap: Time, k: nat) returns (ticks: seq<Tick>, now: Time)
    requires conn.state == Active && policy.forceRotationInterval > 0 && gap >= 1
    ensures Paced(conn.lastRotated, gap, ticks) && Tolerable(conn, policy, ticks, k)
    ensures LastCheck(conn.lastRotated, ticks) <= now <= LastCheck(conn.lastRotated, ticks) + gap
    ensures now - Monitored(conn, policy, ticks).lastRotated == policy.forceRotationInterval + (k + 1) * gap - 1
  {
    var end := conn.lastRotated + 2 * policy.forceRotationInterval + gap + k * gap + policy.preRotationThreshold;
    var before := RotateFirst(conn, policy, gap, Certificate(0, "", conn.lastRotated, end));
    var mid := Monitored(conn, policy, before);
    var rest;
    rest, now := TightWhileCertLasts(mid, policy, gap, k);
    RunsOn(conn, policy, gap, before, rest, k);
    ticks := before + rest;
  }

  // ---- And it needs a positive interval ----------------------------------------

  /** One more failing tick of a connection that is always due. */
  lemma {:induction false} AppendDueTick(conn: Conn, policy: RotationPolicy, ticks: seq<Tick>, tick: Tick)
    requires policy.forceRotationInterval <= 0 && tick.fetched.None?
    requires var now := Monitored(conn, policy, ticks);
      now.state != Closed && (now.state == Failed || now.lastRotated <= tick.at)
    ensures Monitored(conn, policy, ticks + [tick]) == Monitored(conn, policy, ticks).(state := Failed)
    ensures Streak(conn, policy, ticks + [tick]) == Streak(conn, policy, ticks) + 1
  {
    assert (ticks + [tick])[..|ticks|] == ticks;
  }

  lemma {:induction false} TolerableAppend(conn: Conn, policy: RotationPolicy, ticks: seq<Tick>, tick: Tick, k: nat)
    requires Tolerable(conn, policy, ticks, k) && Streak(conn, policy, ticks + [tick]) <= k + 1
    ensures Tolerable(conn, policy, ticks + [tick], k + 1)
  {
    TolerableMonotone(conn, policy, ticks, k, k + 1);
    assert (ticks + [tick])[..|ticks|] == ticks;
  }

  lemma {:induction false} AfterAtLeast(first: Time, gap: Time, n: nat)
    requires gap >= 0
    ensures After(first, gap, n) >= first
  {
    if n > 0 {
      AfterAtLeast(first, gap, n - 1);
    }
  }

  lemma TrainNext(first: Time, gap: Time, n: nat)
    ensures Train(first, gap, n) ==
            (if n == 0 then [] else Train(first, gap, n - 1)) + [Tick(After(first, gap, n), None)]
  {
  }

  /** What `n` failing ticks in a row make of a connection that is always due. */
  ghost predicate FailedThroughout(conn: Conn, policy: RotationPolicy, ticks: seq<Tick>, n: nat) {
    && Monitored(conn, policy, ticks) == (if n == 0 then conn else conn.(state := Failed))
    && Streak(conn, policy, ticks) == n && Tolerable(conn, policy, ticks, n)
  }

  lemma NothingFailedYet(conn: Conn, policy: RotationPolicy)
    ensures FailedThroughout(conn, policy, [], 0)
  {
  }

  lemma {:induction false} FailOnceMore(conn: Conn, policy: RotationPolicy, ticks: seq<Tick>, tick: Tick, n: nat)
    requires conn.state == Active && policy.forceRotationInterval <= 0
    requires FailedThroughout(conn, policy, ticks, n) && tick.fetched.None? && tick.at >= conn.lastRotated
    ensures FailedThroughout(conn, policy, ticks + [tick], n + 1)
  {
    AppendDueTick(conn, policy, ticks, tick);
    TolerableAppend(conn, policy, ticks, tick, n);
  }

  lemma {:induction false} EveryTickFails(conn: Conn, policy: RotationPolicy, first: Time, gap: Time, n: nat)
    requires conn.state == Active && policy.forceRotationInterval <= 0 && gap >= 0 && first >= conn.lastRotated
    ensures FailedThroughout(conn, policy, Train(first, gap, n), n + 1)
  {
    AfterAtLeast(first, gap, n);
    TrainNext(first, gap, n);
    var tick := Tick(After(first, gap, n), None);
    if n == 0 {
      NothingFailedYet(conn, policy);
      FailOnceMore(conn, policy, [], tick, 0);
    } else {
      EveryTickFails(conn, policy, first, gap, n - 1);
      FailOnceMore(conn, policy, Train(first, gap, n - 1), tick, n);
    }
  }

  ghost predicate Observed(conn: Conn, policy: RotationPolicy, gap: Time, ticks: seq<Tick>, k: nat, now: Time) {
    && Paced(conn.lastRotated, gap, ticks) && Tolerable(conn, policy, ticks, k)
    && LastCheck(conn.lastRotated, ticks) <= now <= LastCheck(conn.lastRotated, ticks) + gap
  }

  /** The age bound holds in every run if and only if the forced interval is positive. */
  lemma AgeBoundIff(conn: Conn, policy: RotationPolicy, gap: Time, k: nat)
    requires conn.state == Active && gap >= 0
    ensures (forall ticks: seq<Tick>, now: Time :: Observed(conn, policy, gap, ticks, k, now) ==>
               now - Monitored(conn, policy, ticks).lastRotated < policy.forceRotationInterval + (k + 1) * gap) <==>
            policy.forceRotationInterval > 0
  {
    if policy.forceRotationInterval > 0 {
      forall ticks: seq<Tick>, now: Time | Observed(conn, policy, gap, ticks, k, now)
        ensures now - Monitored(conn, policy, ticks).lastRotated < policy.forceRotationInterval + (k + 1) * gap
      {
        AgeBound(conn, policy, gap, ticks, k, now);
      }
    } else {
      var first := conn.lastRotated + gap;
      var ticks := if k == 0 then [] else Train(first, gap, k - 1);
      var now := if k == 0 then first else After(first, gap, k);
      if k > 0 {
        EveryTickFails(conn, policy, first, gap, k - 1);
        TrainPaced(conn.lastRotated, first, gap, k - 1);
      }
      AfterIsLinear(first, gap, k);
      Distribute(k, 1, gap);
      assert Observed(conn, policy, gap, ticks, k, now);
      assert now - Monitored(conn, policy, ticks).lastRotated >= policy.forceRotationInterval + (k + 1) * gap;
    }
  }

  lemma Divide(span: nat, gap: Time) returns (quiet: nat, rest: nat)
    requires gap >= 1
    ensures span == quiet * gap + rest && rest < gap
  {
    quiet, rest := span / gap, span % gap;
  }

  lemma Distribute(a: int, b: int, gap: Time)
    ensures (a + b) * gap == a * gap + b * gap
  {
  }
}
