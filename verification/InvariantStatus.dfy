/** Checking invariants on connections: what fails where, and how the two tables
    of an invariant status, by invariant and by connection, add up. */
module InvariantStatus {
  import opened Common
  import opened Connections

  /** A check, at one instant, gives the error of a violation. */
  datatype Invariant = Invariant(name: string, check: Conn -> Option<string>)

  datatype Violation = Violation(name: string, error: string)

  /** What `conn` violates, in the order of the invariants. */
  function Failing(rules: seq<Invariant>, conn: Conn): seq<Violation> {
    if rules == [] then []
    else
      var last := rules[|rules| - 1];
      var error := last.check(conn);
      Failing(rules[..|rules| - 1], conn) + if error.Some? then [Violation(last.name, error.value)] else []
  }

  lemma FailingAppend(rules: seq<Invariant>, x: Invariant, conn: Conn)
    ensures Failing(rules + [x], conn) ==
            var rest := Failing(rules, conn); var error := x.check(conn);
            if error.Some? then rest + [Violation(x.name, error.value)] else rest
  {
    assert (rules + [x])[..|rules|] == rules;
  }

  /** `at` are increasing positions of failing invariants, and `r` what fails there. */
  ghost predicate FailsAt(rules: seq<Invariant>, conn: Conn, at: seq<nat>, r: seq<Violation>) {
    && |at| == |r|
    && (forall i, j :: 0 <= i < j < |at| ==> at[i] < at[j])
    && (forall i :: 0 <= i < |at| ==> at[i] < |rules| && rules[at[i]].check(conn) == Some(r[i].error)
                                      && rules[at[i]].name == r[i].name)
  }

  /** No invariant beside `at` fails. */
  ghost predicate NoOthersFail(rules: seq<Invariant>, conn: Conn, at: seq<nat>) {
    forall n: nat :: n < |rules| && n !in at ==> rules[n].check(conn).None?
  }

  lemma {:induction false} FailsAtAppend(rules: seq<Invariant>, conn: Conn, at: seq<nat>, r: seq<Violation>,
                                         x: Invariant)
    requires FailsAt(rules, conn, at, r)
    ensures FailsAt(rules + [x], conn, at, r)
    ensures x.check(conn).Some? ==>
              FailsAt(rules + [x], conn, at + [|rules|], r + [Violation(x.name, x.check(conn).value)])
  {
  }

  lemma {:induction false} NoOthersAppend(rules: seq<Invariant>, conn: Conn, at: seq<nat>, x: Invariant)
    requires NoOthersFail(rules, conn, at)
    ensures NoOthersFail(rules + [x], conn, if x.check(conn).Some? then at + [|rules|] else at)
  {
    var more := if x.check(conn).Some? then at + [|rules|] else at;
    forall n: nat | n < |rules| + 1 && n !in more ensures (rules + [x])[n].check(conn).None? {
      assert n in at ==> n in at + [|rules|];
      assert (at + [|rules|])[|at|] == |rules|;
    }
  }

  /** A connection's violations are all failing checks, in the order of the invariants,
      each with the name and the error of its own invariant. */
  lemma {:induction false} FailingPositions(rules: seq<Invariant>, conn: Conn) returns (at: seq<nat>)
    ensures FailsAt(rules, conn, at, Failing(rules, conn)) && NoOthersFail(rules, conn, at)
  {
    at := [];
    if rules != [] {
      var front, x := rules[..|rules| - 1], rules[|rules| - 1];
      at := FailingPositions(front, conn);
      FailsAtAppend(front, conn, at, Failing(front, conn), x);
      NoOthersAppend(front, conn, at, x);
      assert front + [x] == rules;
      at := if x.check(conn).Some? then at + [|front|] else at;
    }
  }

  function Names(violations: seq<Violation>): (names: seq<string>)
    ensures |names| == |violations|
    ensures forall i :: 0 <= i < |names| ==> names[i] == violations[i].name
  {
    seq(|violations|, i requires 0 <= i < |violations| => violations[i].name)
  }

  /** Who violates `rule`: connection ids with the error. */
  function Violators(rule: Invariant, conns: seq<Conn>): seq<(string, string)> {
    if conns == [] then []
    else
      var last := conns[|conns| - 1];
      var error := rule.check(last);
      Violators(rule, conns[..|conns| - 1]) + if error.Some? then [(last.id, error.value)] else []
  }

  lemma ViolatorsNext(rule: Invariant, conns: seq<Conn>, n: nat)
    requires n < |conns|
    ensures Violators(rule, conns[..n + 1]) ==
            var rest := Violators(rule, conns[..n]); var error := rule.check(conns[n]);
            if error.Some? then rest + [(conns[n].id, error.value)] else rest
  {
    assert conns[..n + 1][..n] == conns[..n];
  }

  /** A row of the status lists exactly the connections that fail the invariant, by id
      and with the error of their own check. */
  lemma {:induction false} ViolatorsAre(rule: Invariant, conns: seq<Conn>, id: string, error: string)
    ensures (id, error) in Violators(rule, conns) <==>
            exists i :: 0 <= i < |conns| && conns[i].id == id && rule.check(conns[i]) == Some(error)
  {
    if conns != [] {
      var front, last := conns[..|conns| - 1], conns[|conns| - 1];
      ViolatorsAre(rule, front, id, error);
      if i :| 0 <= i < |front| && front[i].id == id && rule.check(front[i]) == Some(error) {
        assert conns[i] == front[i];
      }
      if i :| 0 <= i < |conns| && conns[i].id == id && rule.check(conns[i]) == Some(error) {
        assert i < |front| ==> front[i] == conns[i];
      }
    }
  }

  datatype InvariantResult = InvariantResult(passCount: nat, failCount: nat, violations: seq<(string, string)>)

  datatype Status = Status(totalInvariants: nat, totalConnections: nat,
                           invariantResults: map<string, InvariantResult>,
                           connectionResults: map<string, seq<string>>)

  ghost predicate Reports(result: InvariantResult, rule: Invariant, conns: seq<Conn>) {
    && result.violations == Violators(rule, conns)
    && result.failCount == |result.violations|
    && result.passCount + result.failCount == |conns|
  }

  ghost predicate Overwritten(rules: seq<Invariant>, i: nat)
    requires i < |rules|
  {
    exists j :: i < j < |rules| && rules[j].name == rules[i].name
  }

  ghost predicate HasName(rules: seq<Invariant>, name: string) {
    exists i :: 0 <= i < |rules| && rules[i].name == name
  }

  /** The table by invariant: of invariants sharing a name the last one stays. */
  ghost predicate ByInvariant(table: map<string, InvariantResult>, rules: seq<Invariant>, conns: seq<Conn>) {
    && (forall name :: name in table ==> HasName(rules, name))
    && (forall i :: 0 <= i < |rules| ==> rules[i].name in table)
    && (forall i: nat {:trigger Overwritten(rules, i)} :: i < |rules| && !Overwritten(rules, i) ==>
        Reports(table[rules[i].name], rules[i], conns))
  }

  /** Nothing under `id` if it violates nothing, else the names of what it violates. */
  ghost predicate Noted(table: map<string, seq<string>>, id: string, violations: seq<Violation>) {
    if violations == [] then id !in table else id in table && table[id] == Names(violations)
  }

  ghost predicate HasId(conns: seq<Conn>, id: string) {
    exists i :: 0 <= i < |conns| && conns[i].id == id
  }

  /** The table by connection: exactly the violating ones, with what they violate. */
  ghost predicate ByConnection(table: map<string, seq<string>>, rules: seq<Invariant>, conns: seq<Conn>) {
    && (forall id :: id in table ==> HasId(conns, id))
    && (forall i :: 0 <= i < |conns| ==> Noted(table, conns[i].id, Failing(rules, conns[i])))
  }

  ghost predicate DistinctIds(conns: seq<Conn>) {
    forall i, j :: 0 <= i < j < |conns| ==> conns[i].id != conns[j].id
  }

  // ---- Sums over tables -----------------------------------------------------

  ghost function Sum(table: map<string, nat>): nat {
    if table == map[] then 0
    else
      var k :| k in table;
      table[k] + Sum(table - {k})
  }

  /** The key taken first does not matter. */
  lemma {:induction false} SumWithout(table: map<string, nat>, k: string)
    requires k in table
    ensures Sum(table) == table[k] + Sum(table - {k})
    decreases |table|
  {
    var first :| first in table && Sum(table) == table[first] + Sum(table - {first});
    if first != k {
      SumWithout(table - {first}, k);
      SumWithout(table - {k}, first);
      assert table - {first} - {k} == table - {k} - {first};
    }
  }

  lemma SumUpdate(table: map<string, nat>, k: string, n: nat)
    ensures Sum(table[k := n]) == n + Sum(table) - if k in table then table[k] else 0
  {
    SumWithout(table[k := n], k);
    assert table[k := n] - {k} == table - {k};
    if k in table {
      SumWithout(table, k);
    } else {
      assert table - {k} == table;
    }
  }

  ghost function FailCounts(table: map<string, InvariantResult>): map<string, nat> {
    map k | k in table :: table[k].failCount
  }

  ghost function Lengths(table: map<string, seq<string>>): map<string, nat> {
    map k | k in table :: |table[k]|
  }

  // ---- Counting every failed check, by rows and by columns --------------------

  ghost function PerConnection(rules: seq<Invariant>, conns: seq<Conn>): nat {
    if conns == [] then 0
    else PerConnection(rules, conns[..|conns| - 1]) + |Failing(rules, conns[|conns| - 1])|
  }

  ghost function PerInvariant(rules: seq<Invariant>, conns: seq<Conn>): nat {
    if rules == [] then 0
    else PerInvariant(rules[..|rules| - 1], conns) + |Violators(rules[|rules| - 1], conns)|
  }

  lemma {:induction false} OneMoreInvariant(rules: seq<Invariant>, x: Invariant, conns: seq<Conn>)
    ensures PerConnection(rules + [x], conns) == PerConnection(rules, conns) + |Violators(x, conns)|
  {
    if conns != [] {
      var last := conns[|conns| - 1];
      OneMoreInvariant(rules, x, conns[..|conns| - 1]);
      FailingAppend(rules, x, last);
    }
  }

  /** Either way of counting the failed checks gives the same number. */
  lemma {:induction false} RowsMatchColumns(rules: seq<Invariant>, conns: seq<Conn>)
    ensures PerConnection(rules, conns) == PerInvariant(rules, conns)
  {
    if rules == [] {
      NothingFails(conns);
    } else {
      var rest := rules[..|rules| - 1];
      RowsMatchColumns(rest, conns);
      OneMoreInvariant(rest, rules[|rules| - 1], conns);
      assert rest + [rules[|rules| - 1]] == rules;
    }
  }

  lemma {:induction false} NothingFails(conns: seq<Conn>)
    ensures PerConnection([], conns) == 0
  {
    if conns != [] {
      NothingFails(conns[..|conns| - 1]);
    }
  }

  lemma WithoutLast(table: map<string, seq<string>>, rules: seq<Invariant>, conns: seq<Conn>)
    requires conns != [] && DistinctIds(conns) && ByConnection(table, rules, conns)
    ensures ByConnection(table - {conns[|conns| - 1].id}, rules, conns[..|conns| - 1])
  {
    var n := |conns| - 1;
    var rest := table - {conns[n].id};
    forall id | id in rest ensures HasId(conns[..n], id) {
      assert HasId(conns, id);
      var i :| 0 <= i < |conns| && conns[i].id == id;
      assert conns[..n][i].id == id;
    }
    forall i | 0 <= i < n ensures Noted(rest, conns[..n][i].id, Failing(rules, conns[..n][i])) {
      assert Noted(table, conns[i].id, Failing(rules, conns[i]));
    }
  }

  lemma LastRow(table: map<string, seq<string>>, rules: seq<Invariant>, conns: seq<Conn>)
    requires conns != [] && ByConnection(table, rules, conns)
    ensures var last := conns[|conns| - 1];
      if last.id in table then |table[last.id]| == |Failing(rules, last)| else Failing(rules, last) == []
  {
    assert Noted(table, conns[|conns| - 1].id, Failing(rules, conns[|conns| - 1]));
  }

  /** The table by connection holds every failed check. */
  lemma {:induction false} ConnectionTableIsComplete(table: map<string, seq<string>>, rules: seq<Invariant>,
                                                     conns: seq<Conn>)
    requires DistinctIds(conns) && ByConnection(table, rules, conns)
    ensures Sum(Lengths(table)) == PerConnection(rules, conns)
    decreases |conns|
  {
    if conns == [] {
      assert Lengths(table) == map[];
    } else {
      var last := conns[|conns| - 1];
      WithoutLast(table, rules, conns);
      LastRow(table, rules, conns);
      ConnectionTableIsComplete(table - {last.id}, rules, conns[..|conns| - 1]);
      LengthsWithout(table, last.id);
    }
  }

  lemma LengthsWithout(table: map<string, seq<string>>, id: string)
    ensures Sum(Lengths(table)) == Sum(Lengths(table - {id})) + if id in table then |table[id]| else 0
  {
    if id in table {
      SumWithout(Lengths(table), id);
      assert Lengths(table) - {id} == Lengths(table - {id});
    } else {
      assert table - {id} == table;
    }
  }

  /** The failures that the table by invariant no longer shows. */
  ghost function Hidden(rules: seq<Invariant>, conns: seq<Conn>, n: nat): nat
    requires n <= |rules|
  {
    if n == 0 then 0
    else Hidden(rules, conns, n - 1) + if Overwritten(rules, n - 1) then |Violators(rules[n - 1], conns)| else 0
  }

  lemma {:induction false} HiddenIsZeroIff(rules: seq<Invariant>, conns: seq<Conn>, n: nat)
    requires n <= |rules|
    ensures Hidden(rules, conns, n) == 0 <==>
            forall i: nat {:trigger Overwritten(rules, i)} :: i < n && Overwritten(rules, i) ==>
                Violators(rules[i], conns) == []
  {
    if n > 0 {
      HiddenIsZeroIff(rules, conns, n - 1);
    }
  }

  ghost predicate Owns(rules: seq<Invariant>, n: nat, name: string)
    requires n <= |rules|
  {
    exists i: nat {:trigger Overwritten(rules, i)} :: i < n && rules[i].name == name && !Overwritten(rules, i)
  }

  /** The part of the table that invariants before position `n` still own. */
  ghost function Owned(table: map<string, InvariantResult>, rules: seq<Invariant>, n: nat): map<string, InvariantResult>
    requires n <= |rules|
  {
    map name | name in table && Owns(rules, n, name) :: table[name]
  }

  lemma {:induction false} LastOfName(rules: seq<Invariant>, i: nat) returns (last: nat)
    requires i < |rules|
    ensures i <= last < |rules| && rules[last].name == rules[i].name && !Overwritten(rules, last)
    decreases |rules| - i
  {
    last := i;
    if j :| i < j < |rules| && rules[j].name == rules[i].name {
      last := LastOfName(rules, j);
    }
  }

  lemma OwnsMore(rules: seq<Invariant>, n: nat, name: string)
    requires n < |rules|
    ensures Owns(rules, n + 1, name) <==> Owns(rules, n, name) || (rules[n].name == name && !Overwritten(rules, n))
    ensures Owns(rules, n, name) ==> rules[n].name != name
  {
    if i: nat :| i < n + 1 && rules[i].name == name && !Overwritten(rules, i) {
      assert i < n ==> rules[n].name != rules[i].name;
    }
  }

  lemma OwnedGrows(table: map<string, InvariantResult>, rules: seq<Invariant>, conns: seq<Conn>, n: nat)
    requires n < |rules| && ByInvariant(table, rules, conns)
    ensures Overwritten(rules, n) ==> Owned(table, rules, n + 1) == Owned(table, rules, n)
    ensures !Overwritten(rules, n) ==>
      && rules[n].name in table && rules[n].name !in Owned(table, rules, n)
      && Owned(table, rules, n + 1) == Owned(table, rules, n)[rules[n].name := table[rules[n].name]]
  {
    forall name ensures Owns(rules, n + 1, name) <==>
        Owns(rules, n, name) || (rules[n].name == name && !Overwritten(rules, n))
                ensures Owns(rules, n, name) ==> rules[n].name != name {
      OwnsMore(rules, n, name);
    }
  }

  lemma FailCountsUpdate(table: map<string, InvariantResult>, name: string, result: InvariantResult)
    requires name !in table
    ensures Sum(FailCounts(table[name := result])) == Sum(FailCounts(table)) + result.failCount
  {
    SumUpdate(FailCounts(table), name, result.failCount);
    assert FailCounts(table[name := result]) == FailCounts(table)[name := result.failCount];
  }

  lemma LastOwned(table: map<string, InvariantResult>, rules: seq<Invariant>, conns: seq<Conn>, n: nat)
    requires n < |rules| && ByInvariant(table, rules, conns) && !Overwritten(rules, n)
    ensures rules[n].name in table && table[rules[n].name].failCount == |Violators(rules[n], conns)|
  {
  }

  lemma {:induction false} OwnedFailures(table: map<string, InvariantResult>, rules: seq<Invariant>,
                                         conns: seq<Conn>, n: nat)
    requires n <= |rules| && ByInvariant(table, rules, conns)
    ensures Sum(FailCounts(Owned(table, rules, n))) + Hidden(rules, conns, n) == PerInvariant(rules[..n], conns)
  {
    if n == 0 {
      assert FailCounts(Owned(table, rules, 0)) == map[];
    } else {
      OwnedFailures(table, rules, conns, n - 1);
      OwnedGrows(table, rules, conns, n - 1);
      assert rules[..n][..n - 1] == rules[..n - 1];
      if !Overwritten(rules, n - 1) {
        FailCountsUpdate(Owned(table, rules, n - 1), rules[n - 1].name, table[rules[n - 1].name]);
        LastOwned(table, rules, conns, n - 1);
      }
    }
  }

  /** The two tables count the same failures exactly when no failing invariant
      has been overwritten by a later one of the same name. */
  lemma TotalsAgreeIff(byInvariant: map<string, InvariantResult>, byConnection: map<string, seq<string>>,
                       rules: seq<Invariant>, conns: seq<Conn>)
    requires DistinctIds(conns) && ByInvariant(byInvariant, rules, conns) && ByConnection(byConnection, rules, conns)
    ensures Sum(FailCounts(byInvariant)) == Sum(Lengths(byConnection)) <==>
            forall i: nat {:trigger Overwritten(rules, i)} :: i < |rules| && Overwritten(rules, i) ==>
                Violators(rules[i], conns) == []
  {
    var n := |rules|;
    OwnedFailures(byInvariant, rules, conns, n);
    forall name | name in byInvariant ensures name in Owned(byInvariant, rules, n) {
      assert HasName(rules, name);
      var i :| 0 <= i < |rules| && rules[i].name == name;
      var last := LastOfName(rules, i);
    }
    assert Owned(byInvariant, rules, n) == byInvariant;
    assert rules[..n] == rules;
    ConnectionTableIsComplete(byConnection, rules, conns);
    RowsMatchColumns(rules, conns);
    HiddenIsZeroIff(rules, conns, n);
  }

  lemma DistinctNamesTotalsAgree(byInvariant: map<string, InvariantResult>, byConnection: map<string, seq<string>>,
                                 rules: seq<Invariant>, conns: seq<Conn>)
    requires DistinctIds(conns) && ByInvariant(byInvariant, rules, conns) && ByConnection(byConnection, rules, conns)
    requires forall i, j :: 0 <= i < j < |rules| ==> rules[i].name != rules[j].name
    ensures Sum(FailCounts(byInvariant)) == Sum(Lengths(byConnection))
  {
    TotalsAgreeIff(byInvariant, byConnection, rules, conns);
  }

  // ---- Filling the tables -----------------------------------------------------

  function RulesFor(earlier: seq<Invariant>, rule: Invariant, done: bool): seq<Invariant> {
    if done then earlier + [rule] else earlier
  }

  /** The table by connection while `rule` is being checked: done before `n`. */
  ghost predicate NotedUpTo(table: map<string, seq<string>>, earlier: seq<Invariant>, rule: Invariant,
                            conns: seq<Conn>, n: nat)
    requires n <= |conns|
  {
    && (forall id :: id in table ==> HasId(conns, id))
    && (forall i :: 0 <= i < |conns| ==> Noted(table, conns[i].id, Failing(RulesFor(earlier, rule, i < n), conns[i])))
  }

  function Note(table: map<string, seq<string>>, rule: Invariant, conn: Conn): map<string, seq<string>> {
    if rule.check(conn).Some? then table[conn.id := (if conn.id in table then table[conn.id] else []) + [rule.name]]
    else table
  }

  lemma NoteThis(table: map<string, seq<string>>, earlier: seq<Invariant>, rule: Invariant, conn: Conn)
    requires Noted(table, conn.id, Failing(earlier, conn))
    ensures Noted(Note(table, rule, conn), conn.id, Failing(earlier + [rule], conn))
  {
    FailingAppend(earlier, rule, conn);
    if rule.check(conn).Some? {
      assert Names(Failing(earlier + [rule], conn)) == Names(Failing(earlier, conn)) + [rule.name];
    }
  }

  lemma NoteOne(table: map<string, seq<string>>, earlier: seq<Invariant>, rule: Invariant, conns: seq<Conn>, n: nat)
    requires n < |conns| && DistinctIds(conns) && NotedUpTo(table, earlier, rule, conns, n)
    ensures NotedUpTo(Note(table, rule, conns[n]), earlier, rule, conns, n + 1)
  {
    var noted := Note(table, rule, conns[n]);
    assert HasId(conns, conns[n].id);
    forall i | 0 <= i < |conns|
      ensures Noted(noted, conns[i].id, Failing(RulesFor(earlier, rule, i < n + 1), conns[i]))
    {
      assert Noted(table, conns[i].id, Failing(RulesFor(earlier, rule, i < n), conns[i]));
      if i == n {
        NoteThis(table, earlier, rule, conns[n]);
      }
    }
  }

  lemma AllNoted(table: map<string, seq<string>>, earlier: seq<Invariant>, rule: Invariant, conns: seq<Conn>)
    ensures NotedUpTo(table, earlier, rule, conns, 0) <==> ByConnection(table, earlier, conns)
    ensures NotedUpTo(table, earlier, rule, conns, |conns|) <==> ByConnection(table, earlier + [rule], conns)
  {
    forall i | 0 <= i < |conns|
      ensures Failing(RulesFor(earlier, rule, i < 0), conns[i]) == Failing(earlier, conns[i])
      ensures Failing(RulesFor(earlier, rule, i < |conns|), conns[i]) == Failing(earlier + [rule], conns[i])
    {
    }
  }

  lemma AddName(table: map<string, InvariantResult>, rules: seq<Invariant>, rule: Invariant,
                result: InvariantResult, name: string)
    requires name in table ==> HasName(rules, name)
    requires name in table[rule.name := result]
    ensures HasName(rules + [rule], name)
  {
    if name == rule.name {
      assert (rules + [rule])[|rules|].name == name;
    } else {
      var i :| 0 <= i < |rules| && rules[i].name == name;
      assert (rules + [rule])[i].name == name;
    }
  }

  lemma StillOwned(rules: seq<Invariant>, rule: Invariant, i: nat)
    requires i < |rules| && !Overwritten(rules + [rule], i)
    ensures !Overwritten(rules, i) && rules[i].name != rule.name
  {
    var all := rules + [rule];
    assert all[|rules|].name == rule.name;
    forall j | i < j < |rules| ensures rules[j].name != rules[i].name {
      assert all[j].name != all[i].name;
    }
  }

  /** A later invariant takes over the row of an earlier one with its name. */
  lemma AddResult(table: map<string, InvariantResult>, rules: seq<Invariant>, rule: Invariant, conns: seq<Conn>,
                  result: InvariantResult)
    requires ByInvariant(table, rules, conns) && Reports(result, rule, conns)
    ensures ByInvariant(table[rule.name := result], rules + [rule], conns)
  {
    var all := rules + [rule];
    forall name | name in table[rule.name := result] ensures HasName(all, name) {
      AddName(table, rules, rule, result, name);
    }
    forall i: nat {:trigger Overwritten(all, i)} | i < |all| && !Overwritten(all, i)
      ensures Reports(table[rule.name := result][all[i].name], all[i], conns)
    {
      if i < |rules| {
        StillOwned(rules, rule, i);
      }
    }
  }
}
