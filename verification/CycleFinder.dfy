/** The import-cycle finder of the architecture tests: a recursive depth-first
    search that rebuilds each cycle it closes from a parent map. */
module CycleFinder {
  import opened Common

  type Node = string
  type Graph = map<Node, seq<Node>>

  /** Indexing a missing key yields the empty adjacency list. */
  function Successors(g: Graph, n: Node): seq<Node> {
    if n in g then g[n] else []
  }

  predicate Edge(g: Graph, a: Node, b: Node) {
    b in Successors(g, a)
  }

  ghost predicate Walk(g: Graph, w: seq<Node>) {
    forall i :: 0 <= i < |w| - 1 ==> Edge(g, w[i], w[i + 1])
  }

  ghost predicate ClosedWalk(g: Graph, w: seq<Node>) {
    |w| >= 2 && w[0] == w[|w| - 1] && Walk(g, w)
  }

  ghost predicate SimpleCycle(g: Graph, w: seq<Node>) {
    ClosedWalk(g, w) && Distinct(w[1..])
  }

  ghost predicate Cyclic(g: Graph) {
    exists w :: ClosedWalk(g, w)
  }

  /** The last edge of a reported cycle is the back edge that closed it. */
  ghost predicate Closes(c: seq<Node>, a: Node, b: Node) {
    |c| >= 2 && c[|c| - 2] == a && c[|c| - 1] == b
  }

  ghost predicate Reported(cycles: seq<seq<Node>>, a: Node, b: Node) {
    exists k :: 0 <= k < |cycles| && Closes(cycles[k], a, b)
  }

  /** Some edge of `w` is the closing edge of a reported cycle. */
  ghost predicate Broken(cycles: seq<seq<Node>>, w: seq<Node>) {
    exists i :: 0 <= i < |w| - 1 && Reported(cycles, w[i], w[i + 1])
  }

  ghost function Nodes(g: Graph): set<Node> {
    g.Keys + (set a, b | a in g && b in g[a] :: b)
  }

  /** A map of flags reads false at absent keys. */
  predicate Flag(m: map<Node, bool>, n: Node) {
    n in m && m[n]
  }

  /** Every edge out of a finished node leads to a node that finished earlier,
      or has been reported. */
  ghost predicate FinishOrder(g: Graph, cycles: seq<seq<Node>>, finished: seq<Node>) {
    forall i, b :: 0 <= i < |finished| && Edge(g, finished[i], b) ==>
                     b in finished[..i] || Reported(cycles, finished[i], b)
  }

  lemma ReportedMonotone(cycles: seq<seq<Node>>, more: seq<seq<Node>>, a: Node, b: Node)
    requires cycles <= more && Reported(cycles, a, b)
    ensures Reported(more, a, b)
  {
    var k :| 0 <= k < |cycles| && Closes(cycles[k], a, b);
    assert Closes(more[k], a, b);
  }

  lemma FinishOrderMonotone(g: Graph, cycles: seq<seq<Node>>, more: seq<seq<Node>>, finished: seq<Node>)
    requires cycles <= more && FinishOrder(g, cycles, finished)
    ensures FinishOrder(g, more, finished)
  {
    forall i, b | 0 <= i < |finished| && Edge(g, finished[i], b)
      ensures b in finished[..i] || Reported(more, finished[i], b)
    {
      if b !in finished[..i] {
        ReportedMonotone(cycles, more, finished[i], b);
      }
    }
  }

  /** A walk whose edges are all unreported runs strictly backwards in the
      finish order, so it cannot return to its start. */
  lemma {:induction false} UnreportedWalkDescends(
      g: Graph, cycles: seq<seq<Node>>, finished: seq<Node>, w: seq<Node>, j: nat) returns (at: nat)
    requires FinishOrder(g, cycles, finished) && Distinct(finished)
    requires Walk(g, w) && 0 < j < |w| && w[0] in finished
    requires !Broken(cycles, w)
    ensures at < |finished| && finished[at] == w[j]
    ensures forall i :: 0 <= i < |finished| && finished[i] == w[0] ==> at < i
    decreases j
  {
    var from: nat;
    if j == 1 {
      from :| from < |finished| && finished[from] == w[0];
    } else {
      from := UnreportedWalkDescends(g, cycles, finished, w, j - 1);
    }
    assert Edge(g, finished[from], w[j]);
    assert !Reported(cycles, w[j - 1], w[j]);
    at :| 0 <= at < from && finished[..from][at] == w[j];
  }

  lemma FinishOrderBreaksClosedWalks(g: Graph, cycles: seq<seq<Node>>, finished: seq<Node>, w: seq<Node>)
    requires FinishOrder(g, cycles, finished) && Distinct(finished)
    requires forall n :: n in g ==> n in finished
    requires ClosedWalk(g, w)
    ensures Broken(cycles, w)
  {
    if !Broken(cycles, w) {
      assert Edge(g, w[0], w[1]);
      var at := UnreportedWalkDescends(g, cycles, finished, w, |w| - 1);
    }
  }

  /** The reversal loop: swaps the ends inwards. */
  method Reverse(s: seq<Node>) returns (r: seq<Node>)
    ensures |r| == |s| && forall k :: 0 <= k < |s| ==> r[k] == s[|s| - 1 - k]
  {
    r := s;
    var i, j := 0, |r| - 1;
    while i < j
      invariant 0 <= i <= j + 1 && j < |s| && i + j == |s| - 1 && |r| == |s|
      invariant forall k :: 0 <= k < i || j < k < |s| ==> r[k] == s[|s| - 1 - k]
      invariant forall k :: i <= k <= j ==> r[k] == s[k]
    {
      r := r[i := r[j]][j := r[i]];
      i, j := i + 1, j - 1;
    }
  }

  /** What holds of the search between any two statements, as a relation on its
      fields: `stack` are the nodes whose calls are active, outermost first, and
      `finished` those whose calls have returned, in order of return. */
  ghost predicate Consistent(g: Graph, visited: map<Node, bool>, recStack: map<Node, bool>, path: map<Node, Node>,
                             cycles: seq<seq<Node>>, stack: seq<Node>, finished: seq<Node>)
  {
    && Distinct(stack) && Distinct(finished)
    && (forall n :: n in stack ==> n !in finished)
    && (forall n :: Flag(visited, n) <==> n in stack || n in finished)
    && (forall n :: Flag(recStack, n) <==> n in stack)
    && ParentsOnStack(g, path, stack)
    && FinishOrder(g, cycles, finished)
    && (forall k :: 0 <= k < |cycles| ==> SimpleCycle(g, cycles[k]))
  }

  ghost predicate ParentsOnStack(g: Graph, path: map<Node, Node>, stack: seq<Node>) {
    forall i :: 0 < i < |stack| ==>
                  stack[i] in path && path[stack[i]] == stack[i - 1] && Edge(g, stack[i - 1], stack[i])
  }

  /** Each of the first `n` neighbors has finished or been reported. */
  ghost predicate Handled(cycles: seq<seq<Node>>, finished: seq<Node>, node: Node, neighbors: seq<Node>, n: nat) {
    n <= |neighbors| && forall k :: 0 <= k < n ==> neighbors[k] in finished || Reported(cycles, node, neighbors[k])
  }

  lemma HandledMonotone(cycles: seq<seq<Node>>, finished: seq<Node>, moreCycles: seq<seq<Node>>,
                        moreFinished: seq<Node>, node: Node, neighbors: seq<Node>, n: nat)
    requires Handled(cycles, finished, node, neighbors, n) && cycles <= moreCycles && finished <= moreFinished
    requires n < |neighbors| && (neighbors[n] in moreFinished || Reported(moreCycles, node, neighbors[n]))
    ensures Handled(moreCycles, moreFinished, node, neighbors, n + 1)
  {
    forall k | 0 <= k < n
      ensures neighbors[k] in moreFinished || Reported(moreCycles, node, neighbors[k])
    {
      if Reported(cycles, node, neighbors[k]) {
        ReportedMonotone(cycles, moreCycles, node, neighbors[k]);
      }
    }
  }

  lemma EnterKeepsConsistent(g: Graph, visited: map<Node, bool>, recStack: map<Node, bool>, path: map<Node, Node>,
                             cycles: seq<seq<Node>>, stack: seq<Node>, finished: seq<Node>, node: Node)
    requires Consistent(g, visited, recStack, path, cycles, stack, finished) && !Flag(visited, node)
    requires stack != [] ==> node in path && path[node] == stack[|stack| - 1] && Edge(g, stack[|stack| - 1], node)
    ensures Consistent(g, visited[node := true], recStack[node := true], path, cycles, stack + [node], finished)
  {
    assert node !in stack && node !in finished;
  }

  lemma FinishingKeepsOrder(g: Graph, cycles: seq<seq<Node>>, finished: seq<Node>, node: Node)
    requires FinishOrder(g, cycles, finished)
    requires Handled(cycles, finished, node, Successors(g, node), |Successors(g, node)|)
    ensures FinishOrder(g, cycles, finished + [node])
  {
    var more := finished + [node];
    forall i, b | 0 <= i < |more| && Edge(g, more[i], b) ensures b in more[..i] || Reported(cycles, more[i], b) {
      assert more[..i] == finished[..i];
    }
  }

  lemma PoppingMovesNode(outer: seq<Node>, finished: seq<Node>, node: Node)
    requires Distinct(outer + [node]) && Distinct(finished)
    requires forall n :: n in outer + [node] ==> n !in finished
    ensures Distinct(outer) && Distinct(finished + [node])
    ensures forall n :: n in outer ==> n !in finished + [node]
    ensures forall n :: n in outer + [node] || n in finished <==> n in outer || n in finished + [node]
  {
    var stack := outer + [node];
    assert stack[|outer|] == node && node in stack && node !in finished;
    assert forall i :: 0 <= i < |outer| ==> stack[i] == outer[i];
  }

  lemma LeaveKeepsConsistent(g: Graph, visited: map<Node, bool>, recStack: map<Node, bool>, path: map<Node, Node>,
                             cycles: seq<seq<Node>>, outer: seq<Node>, finished: seq<Node>, node: Node)
    requires Consistent(g, visited, recStack, path, cycles, outer + [node], finished)
    requires Handled(cycles, finished, node, Successors(g, node), |Successors(g, node)|)
    ensures Consistent(g, visited, recStack[node := false], path, cycles, outer, finished + [node])
  {
    FinishingKeepsOrder(g, cycles, finished, node);
    PoppingMovesNode(outer, finished, node);
    assert forall i :: 0 <= i < |outer| ==> (outer + [node])[i] == outer[i];
    assert ParentsOnStack(g, path, outer);
  }

  /** The part of the stack from `at` on, closed by the back edge. */
  lemma StackClosesCycle(g: Graph, path: map<Node, Node>, stack: seq<Node>, at: nat)
    requires ParentsOnStack(g, path, stack) && Distinct(stack) && at < |stack|
    requires Edge(g, stack[|stack| - 1], stack[at])
    ensures SimpleCycle(g, stack[at..] + [stack[at]])
    ensures Closes(stack[at..] + [stack[at]], stack[|stack| - 1], stack[at])
  {
    var c := stack[at..] + [stack[at]];
    assert c[1..] == stack[at + 1..] + [stack[at]];
    forall i | 0 <= i < |c| - 1 ensures Edge(g, c[i], c[i + 1]) {
      if i < |c| - 2 {
        assert c[i] == stack[at + i] && c[i + 1] == stack[at + i + 1];
      }
    }
  }

  lemma ReportKeepsConsistent(g: Graph, visited: map<Node, bool>, recStack: map<Node, bool>, path: map<Node, Node>,
                              cycles: seq<seq<Node>>, stack: seq<Node>, finished: seq<Node>, cycle: seq<Node>)
    requires Consistent(g, visited, recStack, path, cycles, stack, finished) && SimpleCycle(g, cycle)
    ensures Consistent(g, visited, recStack, path, cycles + [cycle], stack, finished)
  {
    FinishOrderMonotone(g, cycles, cycles + [cycle], finished);
  }

  ghost function Unvisited(g: Graph, visited: map<Node, bool>): set<Node> {
    set n | n in Nodes(g) && !Flag(visited, n)
  }

  /** The measure of the recursion. */
  lemma VisitingShrinks(g: Graph, visited: map<Node, bool>, more: map<Node, bool>, finished: seq<Node>,
                        moreFinished: seq<Node>, stack: seq<Node>, node: Node)
    requires node in Nodes(g) && !Flag(visited, node) && finished <= moreFinished
    requires forall n :: Flag(visited, n) <==> n in stack || n in finished
    requires forall n :: Flag(more, n) <==> n in stack + [node] || n in moreFinished
    ensures Unvisited(g, more) < Unvisited(g, visited)
  {
    assert node in Unvisited(g, visited) && node !in Unvisited(g, more);
  }

  lemma EdgeTargetIsNode(g: Graph, a: Node, b: Node)
    requires Edge(g, a, b)
    ensures b in Nodes(g)
  {
  }

  class Search {
    const graph: Graph
    var visited: map<Node, bool>
    var recStack: map<Node, bool>
    var path: map<Node, Node>
    var cycles: seq<seq<Node>>
    ghost var stack: seq<Node>
    ghost var finished: seq<Node>

    ghost predicate Valid()
      reads this
    {
      Consistent(graph, visited, recStack, path, cycles, stack, finished)
    }

    constructor (graph: Graph)
      ensures Valid() && this.graph == graph
      ensures stack == [] && finished == [] && cycles == []
    {
      this.graph := graph;
      visited, recStack, path, cycles := map[], map[], map[], [];
      stack, finished := [], [];
    }

    /** Rebuilds the cycle closed by the edge from `node` back to `neighbor`:
        climb the parent map, then reverse in place. */
    method Reconstruct(node: Node, neighbor: Node, ghost at: nat) returns (cycle: seq<Node>)
      requires ParentsOnStack(graph, path, stack) && Distinct(stack)
      requires stack != [] && stack[|stack| - 1] == node
      requires at < |stack| && stack[at] == neighbor && Edge(graph, node, neighbor)
      ensures cycle == stack[at..] + [neighbor]
      ensures SimpleCycle(graph, cycle) && Closes(cycle, node, neighbor)
    {
      cycle := [neighbor];
      var current := node;
      ghost var top := |stack| - 1;
      while current != neighbor
        invariant at <= top < |stack| && current == stack[top]
        invariant |cycle| == |stack| - top && cycle[0] == neighbor
        invariant forall k :: 1 <= k < |cycle| ==> cycle[k] == stack[|stack| - k]
        decreases top
      {
        cycle := cycle + [current];
        current := path[current];
        top := top - 1;
      }
      cycle := cycle + [neighbor];
      cycle := Reverse(cycle);
      assert cycle == stack[at..] + [neighbor];
      StackClosesCycle(graph, path, stack, at);
    }

    /** The body of the neighbor loop: descend, report a cycle, or do nothing. */
    method Follow(node: Node, neighbor: Node) returns (found: bool)
      requires Valid() && stack != [] && stack[|stack| - 1] == node && Edge(graph, node, neighbor)
      modifies this
      ensures Valid() && stack == old(stack)
      ensures old(finished) <= finished && old(cycles) <= cycles
      ensures found <==> |cycles| > |old(cycles)|
      ensures neighbor in finished || Reported(cycles, node, neighbor)
      decreases Unvisited(graph, visited), 1
    {
      found := false;
      if !Flag(visited, neighbor) {
        EdgeTargetIsNode(graph, node, neighbor);
        path := path[neighbor := node];
        found := Dfs(neighbor);
      } else if Flag(recStack, neighbor) {
        ghost var at: nat :| at < |stack| && stack[at] == neighbor;
        var cycle := Reconstruct(node, neighbor, at);
        ReportKeepsConsistent(graph, visited, recStack, path, cycles, stack, finished, cycle);
        cycles := cycles + [cycle];
        assert Closes(cycles[|cycles| - 1], node, neighbor);
        found := true;
      }
    }

    method Enter(node: Node)
      requires Valid() && !Flag(visited, node)
      requires stack != [] ==> node in path && path[node] == stack[|stack| - 1] && Edge(graph, stack[|stack| - 1], node)
      modifies `visited, `recStack, `stack
      ensures Valid() && stack == old(stack) + [node]
    {
      EnterKeepsConsistent(graph, visited, recStack, path, cycles, stack, finished, node);
      visited := visited[node := true];
      recStack := recStack[node := true];
      stack := stack + [node];
    }

    method Leave(node: Node)
      requires Valid() && stack != [] && stack[|stack| - 1] == node
      requires Handled(cycles, finished, node, Successors(graph, node), |Successors(graph, node)|)
      modifies `recStack, `stack, `finished
      ensures Valid() && stack == old(stack[..|stack| - 1]) && finished == old(finished) + [node]
    {
      ghost var outer := stack[..|stack| - 1];
      assert stack == outer + [node];
      LeaveKeepsConsistent(graph, visited, recStack, path, cycles, outer, finished, node);
      recStack := recStack[node := false];
      stack := outer;
      finished := finished + [node];
    }

    /** One recursive call: visits `node` and everything newly reachable, and
        tells whether it reported a cycle. */
    method Dfs(node: Node) returns (foundCycle: bool)
      requires Valid() && node in Nodes(graph) && !Flag(visited, node)
      requires stack != [] ==> node in path && path[node] == stack[|stack| - 1] && Edge(graph, stack[|stack| - 1], node)
      modifies this
      ensures Valid() && stack == old(stack)
      ensures old(finished) <= finished && old(cycles) <= cycles
      ensures foundCycle <==> |cycles| > |old(cycles)|
      ensures node in finished
      decreases Unvisited(graph, visited), 0
    {
      Enter(node);
      foundCycle := false;
      var neighbors := Successors(graph, node);
      for i := 0 to |neighbors|
        invariant Valid() && stack == old(stack) + [node]
        invariant old(finished) <= finished && old(cycles) <= cycles
        invariant foundCycle <==> |cycles| > |old(cycles)|
        invariant Handled(cycles, finished, node, neighbors, i)
      {
        ghost var priorCycles, priorFinished := cycles, finished;
        VisitingShrinks(graph, old(visited), visited, old(finished), finished, old(stack), node);
        var found := Follow(node, neighbors[i]);
        foundCycle := foundCycle || found;
        HandledMonotone(priorCycles, priorFinished, cycles, finished, node, neighbors, i);
      }
      assert (old(stack) + [node])[..|old(stack)|] == old(stack);
      Leave(node);
    }

    /** The loop over the keys of the graph, in an arbitrary order. */
    method Run()
      requires Valid() && stack == [] && finished == [] && cycles == []
      modifies this
      ensures Valid() && stack == []
      ensures forall n :: n in graph ==> n in finished
      ensures forall n :: !Flag(recStack, n)
    {
      var todo := graph.Keys;
      while todo != {}
        invariant Valid() && stack == [] && todo <= graph.Keys
        invariant forall n :: n in graph ==> n in todo || n in finished
        decreases todo
      {
        var node :| node in todo;
        todo := todo - {node};
        if !Flag(visited, node) {
          var _ := Dfs(node);
        }
      }
    }
  }

  /** Every list is a simple cycle of the graph; every closed walk crosses the
      closing edge of some list; hence no list means no cycle and conversely. */
  method FindCycles(graph: Graph) returns (cycles: seq<seq<Node>>)
    ensures forall k :: 0 <= k < |cycles| ==> SimpleCycle(graph, cycles[k])
    ensures forall w :: ClosedWalk(graph, w) ==> Broken(cycles, w)
    ensures cycles == [] <==> !Cyclic(graph)
  {
    var search := new Search(graph);
    search.Run();
    cycles := search.cycles;
    forall w | ClosedWalk(graph, w) ensures Broken(cycles, w) {
      FinishOrderBreaksClosedWalks(graph, cycles, search.finished, w);
    }
    if cycles != [] {
      assert ClosedWalk(graph, cycles[0]);
    }
  }
}
