/** The coordinator object itself: registration under the lock and the body of
    Shutdown, with what the closed resources answer given as a script. */
module Coordination {
  import opened Common
  import opened Shutdown

  /** A closed resource, by its kind and its place in the list of that kind. */
  type Closed = (Kind, nat)

  /** How one shutdown goes: what closing each resource returns, which goroutines
      report back during the phase of a kind and in which order, which report back
      before the i-th cleanup function returns, and whether the wait for a kind ran
      out. A goroutine whose wait ran out may report in any later phase, or never. */
  datatype Script = Script(result: Closed -> Option<string>, order: Kind -> seq<Closed>,
                           lateBefore: nat -> seq<Closed>, timesOut: Kind -> bool)

  predicate Late(script: Script, k: Kind, c: Closed) {
    Turn(c.0) < Turn(k) && script.timesOut(c.0)
  }

  /** What reports back during a phase is one of its own goroutines or a late one,
      each once; a wait that does not run out hears from all of its own. */
  ghost predicate Plausible(script: Script, k: Kind, n: nat) {
    var order := script.order(k);
    && Distinct(order)
    && (forall c :: c in order ==> (c.0 == k && c.1 < n) || Late(script, k, c))
    && (!script.timesOut(k) ==> forall i: nat :: i < n ==> (k, i) in order)
    && (k == Client || k == Cleanup ==> !script.timesOut(k))
  }

  ghost predicate PlausibleCleanup(script: Script, n: nat) {
    && !script.timesOut(Cleanup)
    && forall i, c :: 0 <= i < n && c in script.lateBefore(i) ==> Late(script, Cleanup, c)
  }

  function Causes(order: seq<Closed>, script: Script): seq<Failure> {
    if order == [] then []
    else
      var last := order[|order| - 1];
      Causes(order[..|order| - 1], script) +
      match script.result(last) { case None => [] case Some(e) => [CloseFailed(last.0, e)] }
  }

  lemma {:induction false} CausesEmptyIff(order: seq<Closed>, script: Script)
    ensures Causes(order, script) == [] <==> forall c :: c in order ==> script.result(c).None?
  {
    if order != [] {
      CausesEmptyIff(order[..|order| - 1], script);
      assert order == order[..|order| - 1] + [order[|order| - 1]];
    }
  }

  function Upto(k: Kind, n: nat): seq<(Kind, nat)> {
    if n == 0 then [] else Upto(k, n - 1) + [(k, n - 1)]
  }

  /** Every place up to `n` once, in order. */
  lemma {:induction false} UptoListsAll(k: Kind, n: nat)
    ensures |Upto(k, n)| == n && forall i :: 0 <= i < n ==> Upto(k, n)[i] == (k, i)
  {
    if n > 0 {
      UptoListsAll(k, n - 1);
    }
  }

  /** What one concurrent phase adds to the error list. */
  function Report(k: Kind, script: Script): seq<Failure> {
    Causes(script.order(k), script) + if script.timesOut(k) then [WaitExpired(k)] else []
  }

  /** What the first `n` cleanup functions add, and the goroutines that report meanwhile. */
  function CleanupReport(n: nat, script: Script): seq<Failure> {
    if n == 0 then []
    else CleanupReport(n - 1, script) + Causes(script.lateBefore(n - 1) + [(Cleanup, n - 1)], script)
  }

  function FullReport(cleanups: nat, script: Script): seq<Failure> {
    Report(Server, script) + Report(Listener, script) + Report(Client, script) + CleanupReport(cleanups, script)
  }

  function FirstOf(errors: seq<Failure>): Option<Failure> {
    if errors == [] then None else Some(errors[0])
  }

  ghost predicate AllNil(script: Script, k: Kind, n: nat) {
    forall i: nat :: i < n ==> script.result((k, i)).None?
  }

  /** Nothing timed out and everything returned nil. */
  ghost predicate Clean(script: Script, servers: nat, listeners: nat, clients: nat, cleanups: nat) {
    && !script.timesOut(Server) && !script.timesOut(Listener)
    && AllNil(script, Server, servers) && AllNil(script, Listener, listeners)
    && AllNil(script, Client, clients) && AllNil(script, Cleanup, cleanups)
  }

  class Coordinator {
    var servers: seq<int>
    var clients: seq<int>
    var listeners: seq<int>
    var cleanupFuncs: seq<int>
    var isShuttingDown: bool
    var onceDone: bool
    /** The Close calls and cleanup calls made so far. */
    var calls: seq<(Kind, nat)>

    constructor ()
      ensures servers == clients == listeners == cleanupFuncs == []
      ensures !isShuttingDown && !onceDone && calls == []
    {
      servers, clients, listeners, cleanupFuncs := [], [], [], [];
      isShuttingDown, onceDone, calls := false, false, [];
    }

    method RegisterServer(server: Option<int>)
      modifies `servers
      ensures servers == old(servers) + if server.None? || isShuttingDown then [] else [server.value]
    {
      if server.Some? && !isShuttingDown {
        servers := servers + [server.value];
      }
    }

    method RegisterClient(client: Option<int>)
      modifies `clients
      ensures clients == old(clients) + if client.None? || isShuttingDown then [] else [client.value]
    {
      if client.Some? && !isShuttingDown {
        clients := clients + [client.value];
      }
    }

    method RegisterListener(listener: Option<int>)
      modifies `listeners
      ensures listeners == old(listeners) + if listener.None? || isShuttingDown then [] else [listener.value]
    {
      if listener.Some? && !isShuttingDown {
        listeners := listeners + [listener.value];
      }
    }

    method RegisterCleanupFunc(fn: Option<int>)
      modifies `cleanupFuncs
      ensures cleanupFuncs == old(cleanupFuncs) + if fn.None? || isShuttingDown then [] else [fn.value]
    {
      if fn.Some? && !isShuttingDown {
        cleanupFuncs := cleanupFuncs + [fn.value];
      }
    }

    /** The goroutines that report back, in order. */
    method Collect(order: seq<Closed>, script: Script, errors: seq<Failure>) returns (more: seq<Failure>)
      ensures more == errors + Causes(order, script)
    {
      more := errors;
      for j := 0 to |order|
        invariant more == errors + Causes(order[..j], script)
      {
        assert order[..j + 1][..j] == order[..j];
        var err := script.result(order[j]);
        if err.Some? {
          more := more + [CloseFailed(order[j].0, err.value)];
        }
      }
      assert order[..|order|] == order;
    }

    /** The three concurrent phases: launch every close, then wait for the
        answers or for the deadline. */
    method CloseAll(k: Kind, n: nat, script: Script, errors: seq<Failure>) returns (more: seq<Failure>)
      requires k != Cleanup && Plausible(script, k, n)
      modifies `calls
      ensures calls == old(calls) + Upto(k, n)
      ensures more == errors + Report(k, script)
    {
      for i := 0 to n
        invariant calls == old(calls) + Upto(k, i)
      {
        calls := calls + [(k, i)];
      }
      more := Collect(script.order(k), script, errors);
      if script.timesOut(k) {
        more := more + [WaitExpired(k)];
      }
    }

    method RunCleanupFunctions(script: Script, errors: seq<Failure>) returns (more: seq<Failure>)
      modifies `calls
      ensures calls == old(calls) + Upto(Cleanup, |cleanupFuncs|)
      ensures more == errors + CleanupReport(|cleanupFuncs|, script)
    {
      more := errors;
      for i := 0 to |cleanupFuncs|
        invariant calls == old(calls) + Upto(Cleanup, i)
        invariant more == errors + CleanupReport(i, script)
      {
        calls := calls + [(Cleanup, i)];
        more := Collect(script.lateBefore(i) + [(Cleanup, i)], script, more);
      }
    }

    /** The phases whose resources close concurrently. */
    method RunConcurrentPhases(script: Script) returns (errors: seq<Failure>)
      requires PlausibleShutdown(script, |servers|, |listeners|, |clients|, |cleanupFuncs|)
      modifies `calls
      ensures calls == old(calls) + Upto(Server, |servers|) + Upto(Listener, |listeners|) + Upto(Client, |clients|)
      ensures errors == Report(Server, script) + Report(Listener, script) + Report(Client, script)
    {
      errors := CloseAll(Server, |servers|, script, []);
      assert errors == Report(Server, script);
      errors := CloseAll(Listener, |listeners|, script, errors);
      errors := CloseAll(Client, |clients|, script, errors);
    }

    method RunPhases(script: Script) returns (errors: seq<Failure>)
      requires PlausibleShutdown(script, |servers|, |listeners|, |clients|, |cleanupFuncs|)
      modifies `calls
      ensures calls == old(calls) + Upto(Server, |servers|) + Upto(Listener, |listeners|)
                       + Upto(Client, |clients|) + Upto(Cleanup, |cleanupFuncs|)
      ensures errors == FullReport(|cleanupFuncs|, script)
    {
      errors := RunConcurrentPhases(script);
      errors := RunCleanupFunctions(script, errors);
    }

    /** Closes everything once, phase by phase, and returns the first error; nil
        means nothing went wrong. A second call does nothing and returns nil,
        whatever the first one returned. */
    method Shutdown(script: Script) returns (finalErr: Option<Failure>)
      requires PlausibleShutdown(script, |servers|, |listeners|, |clients|, |cleanupFuncs|)
      modifies `isShuttingDown, `onceDone, `calls
      ensures onceDone
      ensures old(onceDone) ==> finalErr.None? && isShuttingDown == old(isShuttingDown) && calls == old(calls)
      ensures !old(onceDone) ==>
        && isShuttingDown
        && calls == old(calls) + Upto(Server, |servers|) + Upto(Listener, |listeners|)
                    + Upto(Client, |clients|) + Upto(Cleanup, |cleanupFuncs|)
        && (finalErr.None? <==> Clean(script, |servers|, |listeners|, |clients|, |cleanupFuncs|))
        && finalErr == FirstOf(FullReport(|cleanupFuncs|, script))
    {
      finalErr := None;
      if onceDone {
        return;
      }
      onceDone := true;
      isShuttingDown := true;
      var errors := RunPhases(script);
      if |errors| > 0 {
        finalErr := Some(errors[0]);
      }
      NothingReportedIffClean(script, |servers|, |listeners|, |clients|, |cleanupFuncs|);
    }
  }

  lemma NoReportIff(k: Kind, n: nat, script: Script)
    requires Plausible(script, k, n)
    ensures Report(k, script) == [] ==> !script.timesOut(k) && AllNil(script, k, n)
    ensures !script.timesOut(k) && AllNil(script, k, n)
            && (forall j: Kind :: Turn(j) < Turn(k) ==> !script.timesOut(j)) ==>
              Report(k, script) == []
  {
    CausesEmptyIff(script.order(k), script);
  }

  lemma {:induction false} NoCleanupReportIff(n: nat, script: Script)
    requires PlausibleCleanup(script, n)
    ensures CleanupReport(n, script) == [] ==> AllNil(script, Cleanup, n)
    ensures AllNil(script, Cleanup, n) && (forall j: Kind :: !script.timesOut(j)) ==> CleanupReport(n, script) == []
  {
    if n > 0 {
      NoCleanupReportIff(n - 1, script);
      var late, own := script.lateBefore(n - 1), (Cleanup, n - 1);
      CausesEmptyIff(late + [own], script);
      assert own in late + [own];
      forall c | c in late + [own] && forall j: Kind :: !script.timesOut(j) ensures c == own {
        assert c in late ==> Late(script, Cleanup, c);
      }
      assert Causes(late + [own], script) == [] ==> script.result(own).None?;
    }
  }

  ghost predicate PlausibleShutdown(script: Script, servers: nat, listeners: nat, clients: nat, cleanups: nat) {
    && Plausible(script, Server, servers) && Plausible(script, Listener, listeners)
    && Plausible(script, Client, clients) && PlausibleCleanup(script, cleanups)
  }

  lemma NothingReportedIffClean(script: Script, servers: nat, listeners: nat, clients: nat, cleanups: nat)
    requires PlausibleShutdown(script, servers, listeners, clients, cleanups)
    ensures FullReport(cleanups, script) == [] <==> Clean(script, servers, listeners, clients, cleanups)
  {
    NoReportIff(Server, servers, script);
    NoReportIff(Listener, listeners, script);
    NoReportIff(Client, clients, script);
    NoCleanupReportIff(cleanups, script);
    if Clean(script, servers, listeners, clients, cleanups) {
      forall j: Kind ensures !script.timesOut(j) {
        assert j == Server || j == Listener || j == Client || j == Cleanup;
      }
    }
  }

  /** A goroutine that reports late never decides the result: its wait has already
      put an error in front of it. */
  lemma LateReportsComeSecond(script: Script, ns: nat, nl: nat, nc: nat, cleanups: nat, k: Kind)
    requires PlausibleShutdown(script, ns, nl, nc, cleanups) && script.timesOut(k)
    ensures var before := if k == Server then Report(Server, script)
            else Report(Server, script) + Report(Listener, script);
      && before != [] && before <= FullReport(cleanups, script)
      && WaitExpired(k) == before[|before| - 1]
      && FullReport(cleanups, script)[0] == before[0]
  {
    var servers, listeners := Report(Server, script), Report(Listener, script);
    assert servers + listeners <= servers + listeners + Report(Client, script) <= FullReport(cleanups, script);
    assert k == Server || k == Listener;
  }
}
