/** One scripted call of the coordinator object is a run of the shutdown step
    machine: the same calls, the same errors, the same result. */
module ShutdownRun {
  import opened Common
  import opened Shutdown
  import opened Coordination

  lemma {:induction false} RunsCompose(s: System, a: seq<Step>, b: seq<Step>)
    requires Invariant(s) && ValidRun(s, a) && ValidRun(After(s, a), b)
    ensures ValidRun(s, a + b) && After(s, a + b) == After(After(s, a), b)
    decreases |a|
  {
    if a == [] {
      assert a + b == b;
    } else {
      assert (a + b)[1..] == a[1..] + b;
      StepKeepsInvariant(s, a[0]);
      RunsCompose(Do(s, a[0]), a[1..], b);
    }
  }

  lemma Append(s: System, run: seq<Step>, rest: seq<Step>) returns (more: seq<Step>)
    requires Invariant(s) && ValidRun(s, run) && ValidRun(After(s, run), rest)
    ensures ValidRun(s, more) && After(s, more) == After(After(s, run), rest)
  {
    RunsCompose(s, run, rest);
    more := run + rest;
  }

  lemma Extend(s: System, run: seq<Step>, step: Step) returns (more: seq<Step>)
    requires Invariant(s) && ValidRun(s, run) && Enabled(After(s, run), step)
    ensures ValidRun(s, more) && After(s, more) == Do(After(s, run), step)
  {
    StepKeepsInvariant(After(s, run), step);
    assert [step][1..] == [];
    more := Append(s, run, [step]);
  }

  // ---- Launching and closing ------------------------------------------------------

  /** From place `from` on, every entry has this status. */
  ghost function Marked(entries: seq<Entry>, from: nat, status: Status): (marked: seq<Entry>)
    ensures |marked| == |entries|
    ensures forall i :: 0 <= i < |entries| ==>
      marked[i] == if from <= i then entries[i].(status := status) else entries[i]
  {
    seq(|entries|, i requires 0 <= i < |entries| => if from <= i then entries[i].(status := status) else entries[i])
  }

  lemma MarkNext(entries: seq<Entry>, from: nat, status: Status)
    requires from < |entries|
    ensures Marked(entries[from := entries[from].(status := status)], from + 1, status) == Marked(entries, from, status)
  {
  }

  lemma MarkNone(entries: seq<Entry>, status: Status)
    ensures Marked(entries, |entries|, status) == entries
  {
  }

  lemma {:induction false} LaunchAll(s: System, k: Kind, next: nat) returns (run: seq<Step>)
    requires Invariant(s) && s.phase == Launching(k, next) && k != Cleanup && next <= |s.lists.At(k)|
    ensures ValidRun(s, run)
    ensures After(s, run) == s.(phase := Waiting(k), lists := s.lists.With(k, Marked(s.lists.At(k), next, Launched)))
    decreases |s.lists.At(k)| - next
  {
    if next == |s.lists.At(k)| {
      run := Extend(s, [], AllLaunched);
      MarkNone(s.lists.At(k), Launched);
    } else {
      MarkNext(s.lists.At(k), next, Launched);
      run := Extend(s, [], Launch);
      var rest := LaunchAll(After(s, run), k, next + 1);
      run := Append(s, run, rest);
    }
  }

  lemma {:induction false} BeginAll(s: System, k: Kind, j: nat, earlier: seq<Closed>) returns (run: seq<Step>)
    requires Invariant(s) && k != Cleanup && j <= |s.lists.At(k)| && s.calls == earlier + Upto(k, j)
    requires forall i :: j <= i < |s.lists.At(k)| ==> s.lists.At(k)[i].status.Launched?
    ensures ValidRun(s, run)
    ensures After(s, run) == s.(lists := s.lists.With(k, Marked(s.lists.At(k), j, Closing)),
                                calls := earlier + Upto(k, |s.lists.At(k)|))
    decreases |s.lists.At(k)| - j
  {
    run := [];
    if j == |s.lists.At(k)| {
      MarkNone(s.lists.At(k), Closing);
    } else {
      MarkNext(s.lists.At(k), j, Closing);
      run := Extend(s, [], Begin(k, j));
      assert earlier + Upto(k, j + 1) == earlier + Upto(k, j) + [(k, j)];
      var rest := BeginAll(After(s, run), k, j + 1, earlier);
      run := Append(s, run, rest);
    }
  }

  // ---- Reports -----------------------------------------------------------------------

  ghost predicate Open(lists: Lists, c: Closed) {
    c.0 != Cleanup && c.1 < |lists.At(c.0)| && lists.At(c.0)[c.1].status == Closing
  }

  ghost function ReportOne(lists: Lists, c: Closed, script: Script): (after: Lists)
    ensures forall k: Kind :: |after.At(k)| == |lists.At(k)|
  {
    var entries := lists.At(c.0);
    if c.1 < |entries| then lists.With(c.0, entries[c.1 := entries[c.1].(status := Returned(script.result(c)))])
    else lists
  }

  /** The lists once these goroutines have reported. */
  ghost function Reported(lists: Lists, reports: seq<Closed>, script: Script): (after: Lists)
    ensures forall k: Kind :: |after.At(k)| == |lists.At(k)|
  {
    if reports == [] then lists
    else ReportOne(Reported(lists, reports[..|reports| - 1], script), reports[|reports| - 1], script)
  }

  ghost function EntryAfter(entry: Entry, c: Closed, reports: seq<Closed>, script: Script): Entry {
    if c in reports then entry.(status := Returned(script.result(c))) else entry
  }

  lemma ReportOneAt(lists: Lists, c: Closed, script: Script, k: Kind, i: nat)
    requires i < |lists.At(k)|
    ensures ReportOne(lists, c, script).At(k)[i] ==
            if c == (k, i) then lists.At(k)[i].(status := Returned(script.result(c))) else lists.At(k)[i]
  {
    var entries := lists.At(c.0);
    if c.1 < |entries| {
      WithAt(lists, c.0, entries[c.1 := entries[c.1].(status := Returned(script.result(c)))], k);
    }
  }

  lemma {:induction false} ReportedAt(lists: Lists, reports: seq<Closed>, script: Script, k: Kind, i: nat)
    requires i < |lists.At(k)|
    ensures Reported(lists, reports, script).At(k)[i] == EntryAfter(lists.At(k)[i], (k, i), reports, script)
  {
    if reports != [] {
      var front, last := reports[..|reports| - 1], reports[|reports| - 1];
      ReportedAt(lists, front, script, k, i);
      ReportOneAt(Reported(lists, front, script), last, script, k, i);
      assert (k, i) in reports <==> (k, i) in front || (k, i) == last by {
        assert reports == front + [last];
      }
    }
  }

  lemma StillOpen(lists: Lists, reports: seq<Closed>, script: Script, c: Closed)
    requires Open(lists, c) && c !in reports
    ensures Open(Reported(lists, reports, script), c)
  {
    ReportedAt(lists, reports, script, c.0, c.1);
  }

  lemma CausesSplit(front: seq<Closed>, c: Closed, script: Script)
    ensures Causes(front + [c], script) == Causes(front, script) + Causes([c], script)
  {
    assert (front + [c])[..|front|] == front && [c][..0] == [];
  }

  ghost function AfterReports(s: System, reports: seq<Closed>, script: Script): System {
    s.(lists := Reported(s.lists, reports, script), errors := s.errors + Causes(reports, script))
  }

  lemma ReportedAppend(lists: Lists, front: seq<Closed>, c: Closed, script: Script)
    ensures Reported(lists, front + [c], script) == ReportOne(Reported(lists, front, script), c, script)
  {
    assert (front + [c])[..|front|] == front;
  }

  lemma ReportedSingle(lists: Lists, c: Closed, script: Script)
    ensures Reported(lists, [c], script) == ReportOne(lists, c, script)
  {
    assert [] + [c] == [c];
    ReportedAppend(lists, [], c, script);
  }

  lemma AfterOneMore(s: System, front: seq<Closed>, c: Closed, script: Script)
    ensures AfterReports(AfterReports(s, front, script), [c], script) == AfterReports(s, front + [c], script)
  {
    CausesSplit(front, c, script);
    ReportedAppend(s.lists, front, c, script);
    ReportedSingle(Reported(s.lists, front, script), c, script);
    Regroup(s.errors, Causes(front, script), Causes([c], script));
  }

  lemma CausesSingle(c: Closed, script: Script, errors: seq<Failure>)
    ensures errors + Causes([c], script) ==
            if script.result(c).Some? then errors + [CloseFailed(c.0, script.result(c).value)] else errors
  {
    assert [c][..0] == [];
  }

  lemma FinishReport(s: System, c: Closed, script: Script) returns (run: seq<Step>)
    requires Invariant(s) && Open(s.lists, c)
    ensures ValidRun(s, run) && After(s, run) == AfterReports(s, [c], script)
  {
    CausesSingle(c, script, s.errors);
    ReportedSingle(s.lists, c, script);
    run := Extend(s, [], Finish(c.0, c.1, script.result(c)));
  }

  lemma {:induction false} ReportAll(s: System, reports: seq<Closed>, script: Script) returns (run: seq<Step>)
    requires Invariant(s) && Distinct(reports) && forall c :: c in reports ==> Open(s.lists, c)
    ensures ValidRun(s, run) && After(s, run) == AfterReports(s, reports, script)
    decreases |reports|
  {
    run := [];
    if reports != [] {
      var front, c := reports[..|reports| - 1], reports[|reports| - 1];
      assert c in reports && c !in front && reports == front + [c];
      run := ReportAll(s, front, script);
      StillOpen(s.lists, front, script, c);
      var rest := FinishReport(After(s, run), c, script);
      run := Append(s, run, rest);
      AfterOneMore(s, front, c, script);
    }
  }

  // ---- One phase -----------------------------------------------------------------------

  ghost function Opened(lists: Lists, k: Kind): Lists {
    lists.With(k, Marked(lists.At(k), 0, Closing))
  }

  lemma LaunchAndBegin(s: System, k: Kind) returns (run: seq<Step>)
    requires Invariant(s) && s.phase == Launching(k, 0) && k != Cleanup
    ensures ValidRun(s, run)
    ensures After(s, run) ==
            s.(phase := Waiting(k), lists := Opened(s.lists, k), calls := s.calls + Upto(k, |s.lists.At(k)|))
  {
    var entries := s.lists.At(k);
    run := LaunchAll(s, k, 0);
    var t := After(s, run);
    WithAt(s.lists, k, Marked(entries, 0, Launched), k);
    assert s.calls + Upto(k, 0) == s.calls;
    var rest := BeginAll(t, k, 0, s.calls);
    run := Append(s, run, rest);
    assert Marked(Marked(entries, 0, Launched), 0, Closing) == Marked(entries, 0, Closing);
  }

  lemma AllHeard(lists: Lists, k: Kind, reports: seq<Closed>, script: Script)
    requires forall i: nat :: i < |lists.At(k)| ==> (k, i) in reports
    ensures AllReturned(Reported(lists, reports, script).At(k))
  {
    forall i | 0 <= i < |lists.At(k)| ensures Reported(lists, reports, script).At(k)[i].status.Returned? {
      ReportedAt(lists, reports, script, k, i);
    }
  }

  ghost function AfterPhase(s: System, k: Kind, script: Script): System {
    s.(phase := AfterWait(k), lists := Reported(Opened(s.lists, k), script.order(k), script),
       calls := s.calls + Upto(k, |s.lists.At(k)|), errors := s.errors + Report(k, script),
       timeouts := if script.timesOut(k) then s.timeouts + {k} else s.timeouts,
       expired := s.expired || script.timesOut(k))
  }

  lemma EndWait(s: System, k: Kind, script: Script) returns (run: seq<Step>)
    requires Invariant(s) && s.phase == Waiting(k) && (script.timesOut(k) ==> k != Client)
    requires !script.timesOut(k) ==> AllReturned(s.lists.At(k))
    ensures ValidRun(s, run)
    ensures After(s, run) ==
      if script.timesOut(k) then
        s.(phase := AfterWait(k), expired := true, timeouts := s.timeouts + {k}, errors := s.errors + [WaitExpired(k)])
      else s.(phase := AfterWait(k))
  {
    if script.timesOut(k) {
      run := Extend(s, [], Expire);
      run := Extend(s, run, WaitTimesOut);
    } else {
      run := Extend(s, [], WaitDone);
    }
  }

  lemma CloseAndReport(s: System, k: Kind, script: Script) returns (run: seq<Step>)
    requires Invariant(s) && s.phase == Launching(k, 0) && k != Cleanup && Plausible(script, k, |s.lists.At(k)|)
    requires forall c :: c in script.order(k) && c.0 != k ==> Open(s.lists, c)
    ensures ValidRun(s, run)
    ensures After(s, run) ==
      AfterReports(s.(phase := Waiting(k), lists := Opened(s.lists, k), calls := s.calls + Upto(k, |s.lists.At(k)|)),
                   script.order(k), script)
  {
    run := LaunchAndBegin(s, k);
    forall c | c in script.order(k) ensures Open(Opened(s.lists, k), c) {
      WithAt(s.lists, k, Marked(s.lists.At(k), 0, Closing), c.0);
    }
    var rest := ReportAll(After(s, run), script.order(k), script);
    run := Append(s, run, rest);
  }

  lemma PhaseRun(s: System, k: Kind, script: Script) returns (run: seq<Step>)
    requires Invariant(s) && s.phase == Launching(k, 0) && k != Cleanup && Plausible(script, k, |s.lists.At(k)|)
    requires forall c :: c in script.order(k) && c.0 != k ==> Open(s.lists, c)
    ensures ValidRun(s, run) && After(s, run) == AfterPhase(s, k, script)
  {
    run := CloseAndReport(s, k, script);
    if !script.timesOut(k) {
      WithAt(s.lists, k, Marked(s.lists.At(k), 0, Closing), k);
      AllHeard(Opened(s.lists, k), k, script.order(k), script);
    }
    var rest := EndWait(After(s, run), k, script);
    run := Append(s, run, rest);
    var causes := Causes(script.order(k), script);
    Regroup(s.errors, causes, [WaitExpired(k)]);
    assert causes + [] == causes;
  }

  // ---- The cleanup functions -------------------------------------------------------------

  /** Everything that ends during the first `n` cleanup functions, in order. */
  ghost function CleanupOrder(n: nat, script: Script): seq<Closed> {
    if n == 0 then [] else CleanupOrder(n - 1, script) + (script.lateBefore(n - 1) + [(Cleanup, n - 1)])
  }

  lemma {:induction false} ReportedConcat(lists: Lists, a: seq<Closed>, b: seq<Closed>, script: Script)
    ensures Reported(lists, a + b, script) == Reported(Reported(lists, a, script), b, script)
  {
    if b == [] {
      assert a + b == a;
    } else {
      var front, c := b[..|b| - 1], b[|b| - 1];
      var first := Reported(lists, a, script);
      calc {
        Reported(lists, a + b, script);
        { assert a + b == (a + front) + [c]; }
        Reported(lists, (a + front) + [c], script);
        { ReportedAppend(lists, a + front, c, script); }
        ReportOne(Reported(lists, a + front, script), c, script);
        { ReportedConcat(lists, a, front, script); }
        ReportOne(Reported(first, front, script), c, script);
        { ReportedAppend(first, front, c, script); }
        Reported(first, front + [c], script);
        { assert b == front + [c]; }
        Reported(first, b, script);
      }
    }
  }

  lemma {:induction false} CausesConcat(a: seq<Closed>, b: seq<Closed>, script: Script)
    ensures Causes(a + b, script) == Causes(a, script) + Causes(b, script)
  {
    if b == [] {
      assert a + b == a;
    } else {
      var front, c := b[..|b| - 1], b[|b| - 1];
      CausesConcat(a, front, script);
      assert a + b == (a + front) + [c] && b == front + [c];
      CausesSplit(a + front, c, script);
      CausesSplit(front, c, script);
    }
  }

  lemma AfterBoth(s: System, a: seq<Closed>, b: seq<Closed>, script: Script)
    ensures AfterReports(AfterReports(s, a, script), b, script) == AfterReports(s, a + b, script)
  {
    ReportedConcat(s.lists, a, b, script);
    CausesConcat(a, b, script);
    Regroup(s.errors, Causes(a, script), Causes(b, script));
  }

  lemma MarkTwice(entries: seq<Entry>, n: nat, first: Status, second: Status)
    requires n < |entries|
    ensures var once := entries[n := entries[n].(status := first)];
      once[n := once[n].(status := second)] == entries[n := entries[n].(status := second)]
  {
  }

  ghost function AfterCleanup(s: System, n: nat, script: Script): System {
    AfterReports(s, [(Cleanup, n)], script).(phase := Cleaning(n + 1), calls := s.calls + [(Cleanup, n)])
  }

  lemma CleanupEffect(s: System, n: nat, script: Script)
    requires s.phase == Cleaning(n) && n < |s.lists.cleanups| && s.lists.cleanups[n].status.Pending?
    ensures Enabled(s, BeginCleanup)
    ensures Enabled(Do(s, BeginCleanup), FinishCleanup(script.result((Cleanup, n))))
    ensures Do(Do(s, BeginCleanup), FinishCleanup(script.result((Cleanup, n)))) == AfterCleanup(s, n, script)
  {
    ReportedSingle(s.lists, (Cleanup, n), script);
    CausesSingle((Cleanup, n), script, s.errors);
    MarkTwice(s.lists.cleanups, n, Closing, Returned(script.result((Cleanup, n))));
  }

  /** Running one cleanup function. */
  lemma OneCleanup(s: System, n: nat, script: Script) returns (run: seq<Step>)
    requires Invariant(s) && s.phase == Cleaning(n) && n < |s.lists.cleanups| && s.lists.cleanups[n].status.Pending?
    ensures ValidRun(s, run) && After(s, run) == AfterCleanup(s, n, script)
  {
    CleanupEffect(s, n, script);
    run := Extend(s, [], BeginCleanup);
    run := Extend(s, run, FinishCleanup(script.result((Cleanup, n))));
  }

  ghost function AfterCleanups(s: System, n: nat, script: Script): System {
    AfterReports(s, CleanupOrder(n, script), script).(phase := Cleaning(n), calls := s.calls + Upto(Cleanup, n))
  }

  lemma DistinctConcat<T>(a: seq<T>, b: seq<T>)
    requires Distinct(a + b)
    ensures Distinct(a) && Distinct(b) && forall x :: x in a ==> x !in b
  {
    var all := a + b;
    forall i, j | 0 <= i < j < |a| ensures a[i] != a[j] {
      assert all[i] == a[i] && all[j] == a[j];
    }
    forall i, j | 0 <= i < j < |b| ensures b[i] != b[j] {
      assert all[|a| + i] == b[i] && all[|a| + j] == b[j];
    }
    forall i, j | 0 <= i < |a| && 0 <= j < |b| ensures a[i] != b[j] {
      assert all[i] == a[i] && all[|a| + j] == b[j];
    }
  }

  lemma CleanupParts(n: nat, script: Script)
    requires Distinct(CleanupOrder(n + 1, script))
    ensures var earlier, late := CleanupOrder(n, script), script.lateBefore(n);
      && Distinct(earlier) && Distinct(late) && (forall c :: c in late ==> c !in earlier)
      && (Cleanup, n) !in earlier + late
      && (forall c :: c in earlier || c in late ==> c in CleanupOrder(n + 1, script))
  {
    var earlier, late, own := CleanupOrder(n, script), script.lateBefore(n), [(Cleanup, n)];
    DistinctConcat(earlier, late + own);
    DistinctConcat(late, own);
    assert own[0] == (Cleanup, n) && own[0] in late + own;
  }

  lemma {:induction false} CleanupRun(s: System, n: nat, script: Script) returns (run: seq<Step>)
    requires Invariant(s) && s.phase == Cleaning(0) && n <= |s.lists.cleanups| && Distinct(CleanupOrder(n, script))
    requires forall i :: 0 <= i < |s.lists.cleanups| ==> s.lists.cleanups[i].status.Pending?
    requires PlausibleCleanup(script, n)
    requires forall c :: c in CleanupOrder(n, script) && c.0 != Cleanup ==> Open(s.lists, c)
    ensures ValidRun(s, run) && After(s, run) == AfterCleanups(s, n, script)
    decreases n
  {
    run := [];
    if n == 0 {
      assert s.calls + [] == s.calls && s.errors + [] == s.errors;
    } else {
      CleanupParts(n - 1, script);
      run := CleanupRun(s, n - 1, script);
      var rest := CleanupTurn(s, After(s, run), n - 1, script);
      run := Append(s, run, rest);
    }
  }

  lemma StillPending(lists: Lists, reports: seq<Closed>, script: Script, n: nat)
    requires n < |lists.cleanups| && lists.cleanups[n].status.Pending? && (Cleanup, n) !in reports
    ensures Reported(lists, reports, script).At(Cleanup)[n].status.Pending?
  {
    ReportedAt(lists, reports, script, Cleanup, n);
  }

  lemma LateOnes(s: System, t: System, n: nat, script: Script) returns (run: seq<Step>)
    requires Invariant(t) && t == AfterCleanups(s, n, script)
    requires Distinct(CleanupOrder(n + 1, script)) && PlausibleCleanup(script, n + 1)
    requires forall c :: c in CleanupOrder(n + 1, script) && c.0 != Cleanup ==> Open(s.lists, c)
    ensures ValidRun(t, run) && After(t, run) == AfterReports(t, script.lateBefore(n), script)
  {
    CleanupParts(n, script);
    forall c | c in script.lateBefore(n) ensures Open(t.lists, c) {
      assert Late(script, Cleanup, c);
      StillOpen(s.lists, CleanupOrder(n, script), script, c);
    }
    run := ReportAll(t, script.lateBefore(n), script);
  }

  lemma TurnFinds(s: System, n: nat, script: Script)
    requires n < |s.lists.cleanups| && s.lists.cleanups[n].status.Pending?
    requires Distinct(CleanupOrder(n + 1, script))
    ensures var t := AfterReports(AfterCleanups(s, n, script), script.lateBefore(n), script);
      t.phase == Cleaning(n) && n < |t.lists.cleanups| && t.lists.cleanups[n].status.Pending?
  {
    CleanupParts(n, script);
    ReportedConcat(s.lists, CleanupOrder(n, script), script.lateBefore(n), script);
    StillPending(s.lists, CleanupOrder(n, script) + script.lateBefore(n), script, n);
    var lists := AfterReports(AfterCleanups(s, n, script), script.lateBefore(n), script).lists;
    assert lists.At(Cleanup) == lists.cleanups;
  }

  /** One turn of the cleanup loop: late goroutines report, then the function runs. */
  lemma CleanupTurn(s: System, t: System, n: nat, script: Script) returns (run: seq<Step>)
    requires Invariant(t) && t == AfterCleanups(s, n, script) && n < |s.lists.cleanups|
    requires Distinct(CleanupOrder(n + 1, script)) && PlausibleCleanup(script, n + 1)
    requires s.lists.cleanups[n].status.Pending?
    requires forall c :: c in CleanupOrder(n + 1, script) && c.0 != Cleanup ==> Open(s.lists, c)
    ensures ValidRun(t, run) && After(t, run) == AfterCleanups(s, n + 1, script)
  {
    run := LateOnes(s, t, n, script);
    TurnFinds(s, n, script);
    var rest := OneCleanup(After(t, run), n, script);
    run := Append(t, run, rest);
    CleanupStep(s, n + 1, script);
  }

  lemma CleanupStep(s: System, n: nat, script: Script)
    requires n > 0
    ensures var earlier, late := CleanupOrder(n - 1, script), script.lateBefore(n - 1);
      var t := AfterReports(AfterCleanups(s, n - 1, script), late, script);
      AfterReports(t, [(Cleanup, n - 1)], script).(phase := Cleaning(n), calls := t.calls + [(Cleanup, n - 1)])
      == AfterCleanups(s, n, script)
  {
    var earlier, late, own := CleanupOrder(n - 1, script), script.lateBefore(n - 1), [(Cleanup, n - 1)];
    AfterBoth(s, earlier, late + own, script);
    AfterBoth(AfterCleanups(s, n - 1, script), late, own, script);
    Regroup(s.calls, Upto(Cleanup, n - 1), own);
  }

  // ---- The whole call --------------------------------------------------------------------

  lemma {:induction false} CleanupOrderCauses(n: nat, script: Script)
    ensures Causes(CleanupOrder(n, script), script) == CleanupReport(n, script)
  {
    if n > 0 {
      CleanupOrderCauses(n - 1, script);
      CausesConcat(CleanupOrder(n - 1, script), script.lateBefore(n - 1) + [(Cleanup, n - 1)], script);
    }
  }

  /** All reports of a call: each goroutine's at most once, and of something registered. */
  ghost function AllReports(script: Script, cleanups: nat): seq<Closed> {
    script.order(Server) + (script.order(Listener) + (script.order(Client) + CleanupOrder(cleanups, script)))
  }

  ghost predicate Coherent(script: Script, lists: Lists) {
    var reports := AllReports(script, |lists.cleanups|);
    && PlausibleShutdown(script, |lists.servers|, |lists.listeners|, |lists.clients|, |lists.cleanups|)
    && Distinct(reports) && forall c :: c in reports ==> c.1 < |lists.At(c.0)|
  }

  ghost predicate AllPending(lists: Lists) {
    forall k: Kind, i :: 0 <= i < |lists.At(k)| ==> lists.At(k)[i].status.Pending?
  }

  /** What has been closed in the first `turn` phases and not in `done` is still closing. */
  ghost predicate StillClosing(lists: Lists, turn: nat, done: seq<Closed>) {
    forall c: Closed :: Turn(c.0) <= turn && c.0 != Cleanup && c.1 < |lists.At(c.0)| && c !in done ==> Open(lists, c)
  }

  ghost predicate SameSizes(a: Lists, b: Lists) {
    forall k: Kind :: |a.At(k)| == |b.At(k)|
  }

  lemma PhaseKeepsClosing(lists: Lists, k: Kind, done: seq<Closed>, script: Script)
    requires k != Cleanup && StillClosing(lists, Turn(k) - 1, done)
    ensures var after := Reported(Opened(lists, k), script.order(k), script);
      && SameSizes(after, lists) && StillClosing(after, Turn(k), done + script.order(k))
      && (forall i :: 0 <= i < |lists.At(Cleanup)| && (Cleanup, i) !in script.order(k) ==>
            after.At(Cleanup)[i] == lists.At(Cleanup)[i])
  {
    var closing := Opened(lists, k);
    var after := Reported(closing, script.order(k), script);
    forall j: Kind ensures |closing.At(j)| == |lists.At(j)| {
      WithAt(lists, k, Marked(lists.At(k), 0, Closing), j);
    }
    forall c: Closed | Turn(c.0) <= Turn(k) && c.0 != Cleanup && c.1 < |after.At(c.0)| && c !in done + script.order(k)
      ensures Open(after, c)
    {
      WithAt(lists, k, Marked(lists.At(k), 0, Closing), c.0);
      assert c.0 != k ==> Turn(c.0) <= Turn(k) - 1;
      assert Open(closing, c);
      StillOpen(closing, script.order(k), script, c);
    }
    forall i | 0 <= i < |lists.At(Cleanup)| && (Cleanup, i) !in script.order(k)
      ensures after.At(Cleanup)[i] == lists.At(Cleanup)[i]
    {
      WithAt(lists, k, Marked(lists.At(k), 0, Closing), Cleanup);
      ReportedAt(closing, script.order(k), script, Cleanup, i);
    }
  }

  /** No goroutine reports in two phases. */
  lemma ReportsApart(script: Script, cleanups: nat)
    requires Distinct(AllReports(script, cleanups))
    ensures forall c :: c in script.order(Listener) ==> c !in script.order(Server)
    ensures forall c :: c in script.order(Client) ==> c !in script.order(Server) + script.order(Listener)
    ensures var cleanup := CleanupOrder(cleanups, script);
      && Distinct(cleanup)
      && forall c :: c in cleanup ==> c !in script.order(Server) + script.order(Listener) + script.order(Client)
  {
    var servers, listeners, clients := script.order(Server), script.order(Listener), script.order(Client);
    var cleanup := CleanupOrder(cleanups, script);
    DistinctConcat(servers, listeners + (clients + cleanup));
    DistinctConcat(listeners, clients + cleanup);
    DistinctConcat(clients, cleanup);
  }

  lemma ReportsInRange(script: Script, lists: Lists)
    requires Coherent(script, lists)
    ensures forall k, c :: k != Cleanup && c in script.order(k) ==> c.1 < |lists.At(c.0)|
    ensures forall c :: c in CleanupOrder(|lists.cleanups|, script) ==> c.1 < |lists.At(c.0)|
  {
    var reports := AllReports(script, |lists.cleanups|);
    forall k: Kind, c | k != Cleanup && c in script.order(k) ensures c in reports {
      assert k == Server || k == Listener || k == Client;
    }
  }

  /** Between two phases. */
  ghost predicate Between(s: System, base: Lists, turn: nat, done: seq<Closed>) {
    && SameSizes(s.lists, base) && StillClosing(s.lists, turn, done)
    && forall i :: 0 <= i < |base.At(Cleanup)| ==> s.lists.At(Cleanup)[i] == base.At(Cleanup)[i]
  }

  /** What a stretch of the body leaves to its caller's eyes. */
  ghost predicate Advanced(s: System, t: System, phase: Phase, reported: seq<Failure>, called: seq<Closed>) {
    && t.phase == phase && t.errors == s.errors + reported && t.calls == s.calls + called
    && t.callers == s.callers && t.returned == s.returned && t.runner == s.runner && t.finalErr == s.finalErr
  }

  lemma AdvancedTwice(s: System, t: System, u: System, p: Phase, q: Phase, a: seq<Failure>, b: seq<Failure>,
                      c: seq<Closed>, d: seq<Closed>)
    requires Advanced(s, t, p, a, c) && Advanced(t, u, q, b, d)
    ensures Advanced(s, u, q, a + b, c + d)
  {
    Regroup(s.errors, a, b);
    Regroup(s.calls, c, d);
  }

  lemma PhaseBetween(s: System, base: Lists, k: Kind, done: seq<Closed>, script: Script) returns (run: seq<Step>)
    requires Invariant(s) && s.phase == Launching(k, 0) && k != Cleanup
    requires Coherent(script, base) && Between(s, base, Turn(k) - 1, done)
    requires forall c :: c in script.order(k) ==> c !in done
    ensures ValidRun(s, run) && Between(After(s, run), base, Turn(k), done + script.order(k))
    ensures Advanced(s, After(s, run), AfterWait(k), Report(k, script), Upto(k, |base.At(k)|))
  {
    ReportsInRange(script, base);
    assert Plausible(script, k, |base.At(k)|);
    forall c | c in script.order(k) && c.0 != k ensures Open(s.lists, c) {
      assert Late(script, k, c);
    }
    run := PhaseRun(s, k, script);
    PhaseKeepsClosing(s.lists, k, done, script);
  }

  lemma TwoPhases(s: System, script: Script) returns (run: seq<Step>)
    requires Invariant(s) && s.phase == Launching(Server, 0) && Coherent(script, s.lists)
    ensures ValidRun(s, run) && Between(After(s, run), s.lists, 2, script.order(Server) + script.order(Listener))
    ensures Advanced(s, After(s, run), Launching(Client, 0), Report(Server, script) + Report(Listener, script),
                     Upto(Server, |s.lists.servers|) + Upto(Listener, |s.lists.listeners|))
  {
    ReportsApart(script, |s.lists.cleanups|);
    assert [] + script.order(Server) == script.order(Server);
    run := PhaseBetween(s, s.lists, Server, [], script);
    var t := After(s, run);
    var rest := PhaseBetween(t, s.lists, Listener, script.order(Server), script);
    AdvancedTwice(s, t, After(t, rest), Launching(Listener, 0), Launching(Client, 0),
                  Report(Server, script), Report(Listener, script),
                  Upto(Server, |s.lists.servers|), Upto(Listener, |s.lists.listeners|));
    run := Append(s, run, rest);
  }

  lemma ThreePhases(s: System, script: Script) returns (run: seq<Step>)
    requires Invariant(s) && s.phase == Launching(Server, 0) && Coherent(script, s.lists)
    ensures ValidRun(s, run)
    ensures Between(After(s, run), s.lists, 3, script.order(Server) + script.order(Listener) + script.order(Client))
    ensures Advanced(s, After(s, run), Cleaning(0),
                     Report(Server, script) + Report(Listener, script) + Report(Client, script),
                     Upto(Server, |s.lists.servers|) + Upto(Listener, |s.lists.listeners|)
                         + Upto(Client, |s.lists.clients|))
  {
    ReportsApart(script, |s.lists.cleanups|);
    run := TwoPhases(s, script);
    var t := After(s, run);
    var rest := PhaseBetween(t, s.lists, Client, script.order(Server) + script.order(Listener), script);
    AdvancedTwice(s, t, After(t, rest), Launching(Client, 0), Cleaning(0),
                  Report(Server, script) + Report(Listener, script), Report(Client, script),
                  Upto(Server, |s.lists.servers|) + Upto(Listener, |s.lists.listeners|),
                      Upto(Client, |s.lists.clients|));
    run := Append(s, run, rest);
  }

  lemma CleanupPhase(s: System, base: Lists, script: Script) returns (run: seq<Step>)
    requires Invariant(s) && s.phase == Cleaning(0) && Coherent(script, base) && AllPending(base)
    requires Between(s, base, 3, script.order(Server) + script.order(Listener) + script.order(Client))
    ensures ValidRun(s, run)
    ensures Advanced(s, After(s, run), Cleaning(|base.cleanups|),
                     CleanupReport(|base.cleanups|, script), Upto(Cleanup, |base.cleanups|))
    ensures |After(s, run).lists.At(Cleanup)| == |base.cleanups|
  {
    ReportsInRange(script, base);
    ReportsApart(script, |base.cleanups|);
    assert base.At(Cleanup) == base.cleanups && s.lists.At(Cleanup) == s.lists.cleanups;
    assert |s.lists.At(Cleanup)| == |base.At(Cleanup)|;
    forall c | c in CleanupOrder(|base.cleanups|, script) && c.0 != Cleanup ensures Open(s.lists, c) {
      assert |s.lists.At(c.0)| == |base.At(c.0)|;
    }
    run := CleanupRun(s, |base.cleanups|, script);
    CleanupOrderCauses(|base.cleanups|, script);
  }

  /** The body from its first launch to its last cleanup function. */
  lemma BodyRun(s: System, script: Script) returns (run: seq<Step>)
    requires Invariant(s) && s.phase == Launching(Server, 0) && Coherent(script, s.lists) && AllPending(s.lists)
    ensures ValidRun(s, run)
    ensures Advanced(s, After(s, run), Cleaning(|s.lists.cleanups|), FullReport(|s.lists.cleanups|, script),
                     FullCalls(s.lists))
    ensures |After(s, run).lists.At(Cleanup)| == |s.lists.cleanups|
  {
    run := ThreePhases(s, script);
    var t := After(s, run);
    var rest := CleanupPhase(t, s.lists, script);
    AdvancedTwice(s, t, After(t, rest), Cleaning(0), Cleaning(|s.lists.cleanups|),
                  Report(Server, script) + Report(Listener, script) + Report(Client, script),
                  CleanupReport(|s.lists.cleanups|, script),
                  Upto(Server, |s.lists.servers|) + Upto(Listener, |s.lists.listeners|)
                      + Upto(Client, |s.lists.clients|),
                  Upto(Cleanup, |s.lists.cleanups|));
    run := Append(s, run, rest);
  }

  /** The calls that Coordinator.Shutdown makes. */
  ghost function FullCalls(lists: Lists): seq<Closed> {
    Upto(Server, |lists.servers|) + Upto(Listener, |lists.listeners|) + Upto(Client, |lists.clients|)
    + Upto(Cleanup, |lists.cleanups|)
  }

  lemma IdleIsPending(s: System)
    requires Invariant(s) && s.phase.Idle?
    ensures AllPending(s.lists)
  {
    forall k: Kind, i | 0 <= i < |s.lists.At(k)| ensures s.lists.At(k)[i].status.Pending? {
      assert InTurn(s, k);
    }
  }

  /** From any state in which nobody has called Shutdown yet, the machine can do what
      the object does on a script: the same closes in the same order, the same
      errors, and the same result for the caller. */
  lemma ShutdownIsARun(s: System, c: nat, script: Script) returns (run: seq<Step>)
    requires Invariant(s) && s.phase.Idle? && c !in s.callers && c !in s.returned && Coherent(script, s.lists)
    requires s.errors == [] && s.calls == []
    ensures ValidRun(s, run)
    ensures var t := After(s, run); var report := FullReport(|s.lists.cleanups|, script);
      && t.phase == Over && t.errors == report && t.calls == FullCalls(s.lists)
      && c in t.returned && t.returned[c] == FirstOf(report)
    ensures forall k: Kind :: Resources(After(s, run).lists.At(k)) == Resources(s.lists.At(k))
  {
    IdleIsPending(s);
    run := Extend(s, [], Call(c));
    run := Extend(s, run, SetFlag);
    var t := After(s, run);
    var rest := BodyRun(t, script);
    forall k: Kind ensures Resources(After(t, rest).lists.At(k)) == Resources(s.lists.At(k)) {
      ListsFreeze(t, rest, k);
    }
    run := Append(s, run, rest);
    assert [] + FullReport(|s.lists.cleanups|, script) == FullReport(|s.lists.cleanups|, script);
    assert [] + FullCalls(s.lists) == FullCalls(s.lists);
    run := Extend(s, run, Collect);
    run := Extend(s, run, Return(c));
  }
}
