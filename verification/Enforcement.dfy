/** The enforcement sweep: check every invariant on every registered connection,
    then close the connections with too many violations. */
module Enforcement {
  import opened Common
  import opened Connections
  import opened ConnectionRegistry
  import opened InvariantStatus

  datatype ViolationAction = ActionLog | ActionCloseConnection | ActionRestartService | ActionAlertOnly

  datatype Policy = Policy(maxViolations: int, action: ViolationAction)

  const DEFAULT_POLICY := Policy(3, ActionCloseConnection)

  predicate TooMany(violations: seq<Violation>, policy: Policy) {
    violations != [] && |violations| >= policy.maxViolations
  }

  // ---- The sweep as one change of the registry -----------------------------

  ghost function Offenders(reg: Registry, rules: seq<Invariant>, policy: Policy): set<string>
    requires reg.Valid()
  {
    set id | id in reg.connections && TooMany(Failing(rules, reg.objects[reg.connections[id]]), policy)
  }

  ghost predicate Holds(reg: Registry, id: string, o: nat) {
    id in reg.connections && reg.connections[id] == o
  }

  /** All of `ids` closed at once. */
  ghost function Without(reg: Registry, ids: set<string>): Registry {
    Registry(seq(|reg.objects|, o requires 0 <= o < |reg.objects| =>
                   if reg.objects[o].id in ids && Holds(reg, reg.objects[o].id, o) then reg.objects[o].(state := Closed)
                   else reg.objects[o]),
             reg.connections - ids)
  }

  ghost function Swept(reg: Registry, rules: seq<Invariant>, policy: Policy): Registry
    requires reg.Valid()
  {
    if policy.action == ActionCloseConnection then Without(reg, Offenders(reg, rules, policy)) else reg
  }

  /** Closing one by one, in any order, closes all at once. */
  lemma CloseOneMore(reg: Registry, ids: set<string>, id: string)
    requires reg.Valid()
    ensures id in Without(reg, ids).connections ==> Without(reg, ids).connections[id] < |reg.objects|
    ensures Without(reg, ids).Close(id) == Without(reg, ids + {id})
  {
    var once, all := Without(reg, ids).Close(id), Without(reg, ids + {id});
    assert once.connections == all.connections;
    forall o: nat | o < |reg.objects| ensures once.objects[o] == all.objects[o] {
      if Holds(reg, id, o) {
        assert reg.objects[o].id == id;
      }
    }
    assert once.objects == all.objects;
  }

  lemma CloseNone(reg: Registry)
    ensures Without(reg, {}) == reg
  {
    assert Without(reg, {}).objects == reg.objects;
    assert Without(reg, {}).connections == reg.connections;
  }

  /** A sweep leaves registered exactly the connections that violate fewer
      invariants than the policy tolerates, and those it leaves untouched. */
  lemma SweepKeepsExactlyTolerated(reg: Registry, rules: seq<Invariant>, policy: Policy, id: string)
    requires reg.Valid() && policy.action == ActionCloseConnection && id in reg.connections
    ensures var o := reg.connections[id]; var swept := Swept(reg, rules, policy);
      && |swept.objects| == |reg.objects|
      && (id in swept.connections <==>
          |Failing(rules, reg.objects[o])| < if policy.maxViolations < 1 then 1 else policy.maxViolations)
      && (id in swept.connections ==> swept.connections[id] == o && swept.objects[o] == reg.objects[o])
      && (id !in swept.connections ==> swept.objects[o] == reg.objects[o].(state := Closed))
  {
    assert reg.objects[reg.connections[id]].id == id;
  }

  lemma SweepKeepsValid(reg: Registry, rules: seq<Invariant>, policy: Policy)
    requires reg.Valid()
    ensures Swept(reg, rules, policy).Valid()
  {
    if policy.action == ActionCloseConnection {
      forall id | id in Swept(reg, rules, policy).connections
        ensures Swept(reg, rules, policy).objects[reg.connections[id]] == reg.objects[reg.connections[id]]
      {
        SweepKeepsExactlyTolerated(reg, rules, policy, id);
      }
    }
  }

  /** A second sweep at the same instant finds nothing left to close. */
  lemma SweepTwice(reg: Registry, rules: seq<Invariant>, policy: Policy)
    requires reg.Valid()
    ensures Swept(reg, rules, policy).Valid()
    ensures Swept(Swept(reg, rules, policy), rules, policy) == Swept(reg, rules, policy)
  {
    SweepKeepsValid(reg, rules, policy);
    if policy.action == ActionCloseConnection {
      var swept := Swept(reg, rules, policy);
      forall id | id in swept.connections ensures id !in Offenders(swept, rules, policy) {
        SweepKeepsExactlyTolerated(reg, rules, policy, id);
      }
      assert Offenders(swept, rules, policy) == {};
      CloseNone(swept);
    }
  }

  ghost function Over(violations: map<string, seq<Violation>>, policy: Policy): set<string> {
    set id | id in violations && |violations[id]| >= policy.maxViolations
  }

  ghost function Violating(reg: Registry, rules: seq<Invariant>): map<string, seq<Violation>>
    requires reg.Valid()
  {
    map id | id in reg.connections && Failing(rules, reg.objects[reg.connections[id]]) != [] ::
      Failing(rules, reg.objects[reg.connections[id]])
  }

  ghost predicate SameAt(a: map<string, seq<Violation>>, b: map<string, seq<Violation>>, id: string) {
    (id in a <==> id in b) && (id in a ==> a[id] == b[id])
  }

  lemma SameEverywhere(a: map<string, seq<Violation>>, b: map<string, seq<Violation>>)
    requires forall id :: SameAt(a, b, id)
    ensures a == b
  {
    forall id ensures id in a <==> id in b {
      assert SameAt(a, b, id);
    }
    forall id | id in a ensures a[id] == b[id] {
      assert SameAt(a, b, id);
    }
  }

  lemma ViolatingTooMuch(reg: Registry, rules: seq<Invariant>, policy: Policy)
    requires reg.Valid()
    ensures Over(Violating(reg, rules), policy) == Offenders(reg, rules, policy)
  {
  }

  // ---- The service ------------------------------------------------------------

  ghost function Views(list: seq<MTLSConnection>): (conns: seq<Conn>)
    reads list
    ensures |conns| == |list| && forall i :: 0 <= i < |list| ==> conns[i] == list[i].View()
  {
    seq(|list|, i requires 0 <= i < |list| reads list => list[i].View())
  }

  class MTLSEnforcementService {
    const registry: MTLSConnectionRegistry
    var invariants: seq<Invariant>
    var policy: Policy

    constructor (registry: MTLSConnectionRegistry, invariants: seq<Invariant>, policy: Policy)
      ensures this.registry == registry && this.invariants == invariants && this.policy == policy
    {
      this.registry, this.invariants, this.policy := registry, invariants, policy;
    }

    method Check(conn: MTLSConnection) returns (violations: seq<Violation>)
      ensures violations == Failing(invariants, conn.View())
    {
      violations := [];
      for i := 0 to |invariants|
        invariant violations == Failing(invariants[..i], conn.View())
      {
        FailingAppend(invariants[..i], invariants[i], conn.View());
        assert invariants[..i] + [invariants[i]] == invariants[..i + 1];
        var error := invariants[i].check(conn.View());
        if error.Some? {
          violations := violations + [Violation(invariants[i].name, error.value)];
        }
      }
      assert invariants[..|invariants|] == invariants;
    }

    /** Passes exactly the registered connections that violate nothing. */
    method ValidateConnection(id: string) returns (ok: bool)
      requires registry.Valid()
      ensures ok <==> id in registry.connections && Failing(invariants, registry.connections[id].View()) == []
    {
      var conn := registry.GetConnection(id);
      if conn.None? {
        return false;
      }
      var violations := Check(conn.value);
      return violations == [];
    }

    ghost predicate CollectedOne(conn: MTLSConnection, violations: map<string, seq<Violation>>)
      reads this, conn
    {
      var failing := Failing(invariants, conn.View());
      if failing == [] then conn.id !in violations else conn.id in violations && violations[conn.id] == failing
    }

    ghost predicate Collected(list: seq<MTLSConnection>, violations: map<string, seq<Violation>>)
      reads this, list
    {
      && (forall id :: id in violations ==> exists i :: 0 <= i < |list| && list[i].id == id)
      && (forall i :: 0 <= i < |list| ==> CollectedOne(list[i], violations))
    }

    method CheckEachConnection(connections: seq<MTLSConnection>) returns (violations: map<string, seq<Violation>>)
      requires forall i, j :: 0 <= i < j < |connections| ==> connections[i].id != connections[j].id
      ensures Collected(connections, violations)
    {
      violations := map[];
      for n := 0 to |connections|
        invariant forall id :: id in violations ==> exists i :: 0 <= i < n && connections[i].id == id
        invariant forall i :: 0 <= i < n ==> CollectedOne(connections[i], violations)
      {
        var failing := Check(connections[n]);
        if failing != [] {
          violations := violations[connections[n].id := failing];
        }
      }
    }

    lemma CollectedIsViolating(list: seq<MTLSConnection>, violations: map<string, seq<Violation>>, id: string)
      requires registry.Valid() && registry.View().Valid() && registry.Lists(list) && Collected(list, violations)
      ensures SameAt(violations, Violating(registry.View(), invariants), id)
    {
      if id in registry.connections {
        assert registry.connections[id] in list;
        var i :| 0 <= i < |list| && list[i] == registry.connections[id];
        assert CollectedOne(list[i], violations);
      }
    }

    lemma CollectedAreViolating(list: seq<MTLSConnection>, violations: map<string, seq<Violation>>)
      requires registry.Valid() && registry.View().Valid() && registry.Lists(list) && Collected(list, violations)
      ensures violations == Violating(registry.View(), invariants)
    {
      var all := Violating(registry.View(), invariants);
      forall id ensures SameAt(violations, all, id) {
        CollectedIsViolating(list, violations, id);
      }
      SameEverywhere(violations, all);
    }

    /** What every registered connection violates, whatever order they are listed in. */
    method CollectViolations(connections: seq<MTLSConnection>) returns (violations: map<string, seq<Violation>>)
      requires registry.Valid() && registry.View().Valid() && registry.Lists(connections)
      ensures violations == Violating(registry.View(), invariants)
    {
      ghost var was := registry.View();
      violations := CheckEachConnection(connections);
      assert registry.View() == was;
      CollectedAreViolating(connections, violations);
    }

    /** What the policy does about one connection; every other action only logs. */
    method Act(id: string, ghost was: Registry, ghost closed: set<string>)
      requires registry.Valid() && was.Valid()
      requires registry.View() == if policy.action == ActionCloseConnection then Without(was, closed) else was
      modifies registry`connections, registry.objects
      ensures registry.Valid() && registry.objects == old(registry.objects)
      ensures registry.View() == if policy.action == ActionCloseConnection then Without(was, closed + {id}) else was
    {
      if policy.action == ActionCloseConnection {
        CloseOneMore(was, closed, id);
        registry.CloseConnection(id);
      }
    }

    /** Closes, in whatever order the map yields, every id with too many violations. */
    method HandleViolations(violations: map<string, seq<Violation>>)
      requires registry.Valid()
      modifies registry`connections, registry.objects
      ensures registry.Valid() && registry.objects == old(registry.objects)
      ensures registry.View() ==
        if policy.action == ActionCloseConnection then Without(old(registry.View()), Over(violations, policy))
        else old(registry.View())
    {
      ghost var was := registry.View();
      ghost var closed := {};
      registry.ViewIsValid();
      CloseNone(was);
      var rest := violations.Keys;
      while rest != {}
        invariant registry.Valid() && registry.objects == old(registry.objects)
        invariant rest <= violations.Keys
        invariant closed == Over(violations, policy) - rest
        invariant registry.View() == if policy.action == ActionCloseConnection then Without(was, closed) else was
        decreases |rest|
      {
        var id :| id in rest;
        rest := rest - {id};
        if |violations[id]| >= policy.maxViolations {
          Act(id, was, closed);
          closed := closed + {id};
        }
      }
      assert closed == Over(violations, policy);
    }

    /** One undisturbed sweep. */
    method CheckAllInvariants()
      requires registry.Valid()
      modifies registry`connections, registry.objects
      ensures registry.Valid() && registry.objects == old(registry.objects)
      ensures old(registry.View()).Valid()
      ensures registry.View() == old(Swept(registry.View(), invariants, policy))
      ensures policy.action != ActionCloseConnection ==> registry.View() == old(registry.View())
    {
      registry.ViewIsValid();
      ghost var was := registry.View();
      CloseNone(was);
      ViolatingTooMuch(was, invariants, policy);
      var connections := registry.ListConnections();
      assert registry.View() == was;
      if |connections| == 0 {
        assert Offenders(was, invariants, policy) == {};
        return;
      }
      var violations := CollectViolations(connections);
      assert registry.View() == was;
      HandleViolations(violations);
    }

    ghost predicate Shows(connections: seq<MTLSConnection>, conns: seq<Conn>)
      reads connections
    {
      |conns| == |connections| && forall i :: 0 <= i < |conns| ==> conns[i] == connections[i].View()
    }

    method CheckOne(ghost earlier: seq<Invariant>, rule: Invariant, conn: MTLSConnection, ghost conns: seq<Conn>,
                    ghost n: nat,
                    before: InvariantResult, byConnection: map<string, seq<string>>)
      returns (after: InvariantResult, noted: map<string, seq<string>>)
      requires n < |conns| && conns[n] == conn.View() && DistinctIds(conns)
      requires Reports(before, rule, conns[..n]) && NotedUpTo(byConnection, earlier, rule, conns, n)
      ensures Reports(after, rule, conns[..n + 1]) && NotedUpTo(noted, earlier, rule, conns, n + 1)
    {
      ViolatorsNext(rule, conns, n);
      NoteOne(byConnection, earlier, rule, conns, n);
      after, noted := before, byConnection;
      var error := rule.check(conn.View());
      if error.Some? {
        after := InvariantResult(before.passCount, before.failCount + 1, before.violations + [(conn.id, error.value)]);
        noted := noted[conn.id := (if conn.id in noted then noted[conn.id] else []) + [rule.name]];
      } else {
        after := after.(passCount := before.passCount + 1);
      }
    }

    /** One row of the status: count passes and failures of `rule`, and note it
        under each connection that violates it. */
    method CheckInvariant(ghost earlier: seq<Invariant>, rule: Invariant, connections: seq<MTLSConnection>,
                          ghost conns: seq<Conn>, byConnection: map<string, seq<string>>)
      returns (result: InvariantResult, noted: map<string, seq<string>>)
      requires Shows(connections, conns) && DistinctIds(conns) && ByConnection(byConnection, earlier, conns)
      ensures Reports(result, rule, conns)
      ensures ByConnection(noted, earlier + [rule], conns)
    {
      result, noted := InvariantResult(0, 0, []), byConnection;
      AllNoted(noted, earlier, rule, conns);
      for n := 0 to |connections|
        invariant Reports(result, rule, conns[..n])
        invariant NotedUpTo(noted, earlier, rule, conns, n)
      {
        result, noted := CheckOne(earlier, rule, connections[n], conns, n, result, noted);
      }
      AllNoted(noted, earlier, rule, conns);
      assert conns[..|connections|] == conns;
    }

    method CheckEach(connections: seq<MTLSConnection>, ghost conns: seq<Conn>) returns (status: Status)
      requires Shows(connections, conns) && DistinctIds(conns)
      ensures status.totalInvariants == |invariants| && status.totalConnections == |conns|
      ensures ByInvariant(status.invariantResults, invariants, conns)
      ensures ByConnection(status.connectionResults, invariants, conns)
    {
      var byInvariant: map<string, InvariantResult> := map[];
      var byConnection: map<string, seq<string>> := map[];
      for n := 0 to |invariants|
        invariant ByInvariant(byInvariant, invariants[..n], conns)
        invariant ByConnection(byConnection, invariants[..n], conns)
      {
        assert invariants[..n + 1] == invariants[..n] + [invariants[n]];
        var result, noted := CheckInvariant(invariants[..n], invariants[n], connections, conns, byConnection);
        AddResult(byInvariant, invariants[..n], invariants[n], conns, result);
        byInvariant, byConnection := byInvariant[invariants[n].name := result], noted;
      }
      assert invariants[..|invariants|] == invariants;
      status := Status(|invariants|, |connections|, byInvariant, byConnection);
    }

    method GetInvariantStatus() returns (status: Status, ghost connections: seq<MTLSConnection>)
      requires registry.Valid()
      ensures registry.Lists(connections)
      ensures status.totalInvariants == |invariants| && status.totalConnections == |registry.connections|
      ensures ByInvariant(status.invariantResults, invariants, Views(connections))
      ensures ByConnection(status.connectionResults, invariants, Views(connections))
    {
      var list := registry.ListConnections();
      connections := list;
      status := CheckEach(list, Views(list));
    }
  }
}
