/** Directed multigraphs over node identifiers, and Kahn's in-degree bookkeeping, which
    both topological sorts of the orchestrator share. */
module Graph {
  import opened Ids

  datatype Edge = Edge(from: Id, to: Id)

  ghost predicate IsWalk(edges: seq<Edge>, p: seq<Id>) {
    |p| > 0 && forall i :: 0 <= i < |p| - 1 ==> Edge(p[i], p[i + 1]) in edges
  }

  ghost predicate Reaches(edges: seq<Edge>, u: Id, v: Id) {
    exists p :: IsWalk(edges, p) && p[0] == u && p[|p| - 1] == v
  }

  ghost predicate IsCycle(edges: seq<Edge>, p: seq<Id>) {
    |p| > 1 && IsWalk(edges, p) && p[0] == p[|p| - 1]
  }

  ghost predicate Cyclic(edges: seq<Edge>) {
    exists p :: IsCycle(edges, p)
  }

  ghost predicate Closed(nodes: set<Id>, edges: seq<Edge>) {
    forall e :: e in edges ==> e.from in nodes && e.to in nodes
  }

  /** Every edge between two listed nodes goes from an earlier to a later position. */
  ghost predicate Forward(edges: seq<Edge>, order: seq<Id>) {
    forall i, j :: 0 <= i < |order| && 0 <= j < |order| && Edge(order[i], order[j]) in edges ==> i < j
  }

  ghost predicate IsTopological(nodes: set<Id>, edges: seq<Edge>, order: seq<Id>) {
    Distinct(order) && Members(order) == nodes && Forward(edges, order)
  }

  lemma EdgePositions(nodes: set<Id>, edges: seq<Edge>, order: seq<Id>, u: Id, v: Id) returns (i: nat, j: nat)
    requires Closed(nodes, edges) && IsTopological(nodes, edges, order)
    requires Edge(u, v) in edges
    ensures i < j < |order| && order[i] == u && order[j] == v
  {
    assert u in Members(order) && v in Members(order);
    i :| 0 <= i < |order| && order[i] == u;
    j :| 0 <= j < |order| && order[j] == v;
  }

  // ---- acyclicity ----

  /** A topological order leaves no room for a cycle. */
  lemma TopologicalAcyclic(nodes: set<Id>, edges: seq<Edge>, order: seq<Id>)
    requires Closed(nodes, edges) && IsTopological(nodes, edges, order)
    ensures !Cyclic(edges)
  {
    if Cyclic(edges) {
      var p :| IsCycle(edges, p);
      assert Edge(p[0], p[1]) in edges;
      assert p[0] in Members(order);
      var i :| 0 <= i < |order| && order[i] == p[0];
      var j := WalkAdvances(nodes, edges, order, p, i);
    }
  }

  lemma {:induction false} WalkAdvances(nodes: set<Id>, edges: seq<Edge>, order: seq<Id>, p: seq<Id>, i: nat)
      returns (j: nat)
    requires Closed(nodes, edges) && IsTopological(nodes, edges, order)
    requires IsWalk(edges, p) && i < |order| && order[i] == p[0]
    ensures j < |order| && order[j] == p[|p| - 1]
    ensures i <= j && (|p| > 1 ==> i < j)
    decreases |p|
  {
    if |p| == 1 {
      j := i;
    } else {
      assert Edge(p[0], p[1]) in edges;
      assert p[1] in Members(order);
      var k :| 0 <= k < |order| && order[k] == p[1];
      assert Edge(order[i], order[k]) in edges;
      WalkSuffix(edges, p, 1);
      j := WalkAdvances(nodes, edges, order, p[1..], k);
    }
  }

  lemma WalkPrepend(edges: seq<Edge>, u: Id, p: seq<Id>)
    requires IsWalk(edges, p) && Edge(u, p[0]) in edges
    ensures IsWalk(edges, [u] + p)
  {
    var q := [u] + p;
    forall m | 0 <= m < |q| - 1 ensures Edge(q[m], q[m + 1]) in edges {
      if m > 0 { assert Edge(p[m - 1], p[m]) in edges; }
    }
  }

  lemma WalkAppend(edges: seq<Edge>, p: seq<Id>, v: Id)
    requires IsWalk(edges, p) && Edge(p[|p| - 1], v) in edges
    ensures IsWalk(edges, p + [v])
  {
    var q := p + [v];
    forall m | 0 <= m < |q| - 1 ensures Edge(q[m], q[m + 1]) in edges {
      if m < |p| - 1 { assert Edge(p[m], p[m + 1]) in edges; }
    }
  }

  lemma WalkPrefix(edges: seq<Edge>, p: seq<Id>, n: nat)
    requires IsWalk(edges, p) && 0 < n <= |p|
    ensures IsWalk(edges, p[..n])
  {
    forall m | 0 <= m < n - 1 ensures Edge(p[..n][m], p[..n][m + 1]) in edges {
      assert Edge(p[m], p[m + 1]) in edges;
    }
  }

  lemma WalkSuffix(edges: seq<Edge>, p: seq<Id>, n: nat)
    requires IsWalk(edges, p) && n < |p|
    ensures IsWalk(edges, p[n..])
  {
    forall m | 0 <= m < |p| - n - 1 ensures Edge(p[n..][m], p[n..][m + 1]) in edges {
      assert Edge(p[n + m], p[n + m + 1]) in edges;
    }
  }

  ghost predicate HasPredecessor(edges: seq<Edge>, rest: set<Id>, v: Id) {
    exists u :: u in rest && Edge(u, v) in edges
  }

  /** When every node of a nonempty set has a predecessor inside the set, there is a cycle:
      a backward walk through distinct nodes must run out of new ones. */
  lemma {:induction false} BackwardCycle(edges: seq<Edge>, rest: set<Id>, p: seq<Id>)
    requires forall v :: v in rest ==> HasPredecessor(edges, rest, v)
    requires IsWalk(edges, p) && Distinct(p) && Members(p) <= rest
    ensures Cyclic(edges)
    decreases |rest| - |p|
  {
    DistinctCovers(p, rest);
    var v := p[0];
    assert v in Members(p) && HasPredecessor(edges, rest, v);
    var u :| u in rest && Edge(u, v) in edges;
    var q := [u] + p;
    WalkPrepend(edges, u, p);
    if u in p {
      var i :| 0 <= i < |p| && p[i] == u;
      WalkPrefix(edges, q, i + 2);
      assert IsCycle(edges, q[..i + 2]);
    } else {
      assert Members(q) == {u} + Members(p);
      BackwardCycle(edges, rest, q);
    }
  }

  // ---- in-degree bookkeeping ----

  /** How many edges into `v` still come from outside `done`, with multiplicity. */
  function Pending(edges: seq<Edge>, v: Id, done: set<Id>): nat {
    if edges == [] then 0
    else
      var e := edges[|edges| - 1];
      Pending(edges[..|edges| - 1], v, done) + (if e.to == v && e.from !in done then 1 else 0)
  }

  /** The adjacency list of `u`: one entry per edge, in edge order. */
  function Targets(edges: seq<Edge>, u: Id): seq<Id> {
    if edges == [] then []
    else
      var e := edges[|edges| - 1];
      Targets(edges[..|edges| - 1], u) + (if e.from == u then [e.to] else [])
  }

  lemma {:induction false} PendingZero(edges: seq<Edge>, v: Id, done: set<Id>)
    ensures Pending(edges, v, done) == 0 <==> forall u :: Edge(u, v) in edges ==> u in done
  {
    if edges != [] {
      var e := edges[|edges| - 1];
      var front := edges[..|edges| - 1];
      assert edges == front + [e];
      PendingZero(front, v, done);
      if Pending(edges, v, done) == 0 {
        forall u | Edge(u, v) in edges ensures u in done {
          assert Edge(u, v) in front || Edge(u, v) == e;
        }
      } else if Pending(front, v, done) == 0 {
        assert Edge(e.from, v) in edges;
      }
    }
  }

  /** Placing `u` releases exactly the entries of its adjacency list. */
  lemma {:induction false} PendingPlace(edges: seq<Edge>, u: Id, v: Id, done: set<Id>)
    requires u !in done
    ensures Pending(edges, v, done) == Pending(edges, v, done + {u}) + multiset(Targets(edges, u))[v]
  {
    if edges != [] {
      PendingPlace(edges[..|edges| - 1], u, v, done);
    }
  }

  lemma {:induction false} TargetsAreEdges(edges: seq<Edge>, u: Id, v: Id)
    ensures v in Targets(edges, u) <==> Edge(u, v) in edges
  {
    if edges != [] {
      var e := edges[|edges| - 1];
      var front := edges[..|edges| - 1];
      assert edges == front + [e];
      TargetsAreEdges(front, u, v);
    }
  }

  /** Adjacency lists and in-degrees of an edge list over known nodes. */
  ghost predicate Adjacent(nodeIds: set<Id>, edges: seq<Edge>, adjacency: map<Id, seq<Id>>, inDegree: map<Id, int>) {
    && Closed(nodeIds, edges)
    && adjacency.Keys == nodeIds && inDegree.Keys == nodeIds
    && (forall v :: v in nodeIds ==> adjacency[v] == Targets(edges, v))
    && (forall v :: v in nodeIds ==> inDegree[v] == Pending(edges, v, {}))
  }

  lemma AdjacentStep(nodeIds: set<Id>, edges: seq<Edge>, e: Edge, adjacency: map<Id, seq<Id>>, inDegree: map<Id, int>)
    requires Adjacent(nodeIds, edges, adjacency, inDegree)
    requires e.from in nodeIds && e.to in nodeIds
    ensures Adjacent(nodeIds, edges + [e],
                     adjacency[e.from := adjacency[e.from] + [e.to]], inDegree[e.to := inDegree[e.to] + 1])
  {
    assert (edges + [e])[..|edges|] == edges;
  }

  /** The state of Kahn's algorithm part way through relaxing the last placed node: `todo`
      is what is left of that node's adjacency list. */
  ghost predicate Kahn(nodes: set<Id>, edges: seq<Edge>, degree: map<Id, int>,
                       ready: seq<Id>, order: seq<Id>, todo: seq<Id>)
  {
    && degree.Keys == nodes
    && Members(todo) <= nodes
    && Distinct(order) && Distinct(ready) && Members(order) !! Members(ready)
    && Members(order) + Members(ready) <= nodes
    && (forall v :: v in nodes ==> degree[v] == Pending(edges, v, Members(order)) + multiset(todo)[v])
    && (forall v :: v in nodes ==> (degree[v] == 0 <==> v in Members(order) + Members(ready)))
    && (forall j :: 0 <= j < |order| ==> Released(edges, order, j))
  }

  /** The node at position `j` has all its predecessors before it. */
  ghost predicate Released(edges: seq<Edge>, order: seq<Id>, j: nat)
    requires j < |order|
  {
    forall u :: Edge(u, order[j]) in edges ==> u in order[..j]
  }

  lemma KahnStart(nodes: set<Id>, edges: seq<Edge>, degree: map<Id, int>, ready: seq<Id>)
    requires degree.Keys == nodes && Distinct(ready)
    requires forall v :: v in nodes ==> degree[v] == Pending(edges, v, {})
    requires forall v :: v in ready <==> v in nodes && degree[v] == 0
    ensures Kahn(nodes, edges, degree, ready, [], [])
  {
    assert Members([]) == {};
  }

  lemma KahnPlace(nodes: set<Id>, edges: seq<Edge>, degree: map<Id, int>, ready: seq<Id>, order: seq<Id>, todo: seq<Id>)
    requires Closed(nodes, edges)
    requires Kahn(nodes, edges, degree, ready, order, []) && ready != []
    requires multiset(todo) == multiset(Targets(edges, ready[0]))
    ensures Kahn(nodes, edges, degree, ready[1..], order + [ready[0]], todo)
  {
    var u := ready[0];
    var placed := order + [u];
    assert Members(placed) == Members(order) + {u};
    HeadTaken(ready);
    assert u !in Members(order);
    forall v | v in nodes
      ensures degree[v] == Pending(edges, v, Members(placed)) + multiset(todo)[v]
    {
      PendingPlace(edges, u, v, Members(order));
      assert multiset([])[v] == 0;
    }
    SameElements(Targets(edges, u), todo);
    forall v | v in Members(todo) ensures v in nodes {
      TargetsAreEdges(edges, u, v);
    }
    assert degree[u] == 0 && multiset([])[u] == 0;
    ReleasedNext(edges, order, u);
  }

  lemma HeadTaken(ready: seq<Id>)
    requires Distinct(ready) && ready != []
    ensures Members(ready) == {ready[0]} + Members(ready[1..]) && ready[0] !in Members(ready[1..])
    ensures ready[0] in Members(ready) && Distinct(ready[1..])
  {
    assert ready == [ready[0]] + ready[1..];
    DistinctTail(ready);
  }

  lemma ReleasedNext(edges: seq<Edge>, order: seq<Id>, u: Id)
    requires forall j :: 0 <= j < |order| ==> Released(edges, order, j)
    requires Pending(edges, u, Members(order)) == 0
    ensures forall j :: 0 <= j <= |order| ==> Released(edges, order + [u], j)
  {
    var placed := order + [u];
    PendingZero(edges, u, Members(order));
    forall j | 0 <= j < |placed| ensures Released(edges, placed, j) {
      if j < |order| {
        assert Released(edges, order, j);
        assert placed[..j] == order[..j] && placed[j] == order[j];
      } else {
        assert placed[..j] == order;
      }
    }
  }

  lemma KahnProgress(nodes: set<Id>, edges: seq<Edge>, degree: map<Id, int>, ready: seq<Id>, order: seq<Id>)
    requires Kahn(nodes, edges, degree, ready, order, []) && ready != []
    ensures ready[0] in nodes
    ensures nodes - Members(order + [ready[0]]) < nodes - Members(order)
  {
    var u := ready[0];
    assert u in Members(ready);
    assert Members(order + [u]) == Members(order) + {u};
    assert u in nodes - Members(order);
  }

  /** One adjacency entry: decrement, and append to the frontier on reaching zero. */
  lemma KahnRelax(nodes: set<Id>, edges: seq<Edge>, degree: map<Id, int>, ready: seq<Id>, order: seq<Id>, todo: seq<Id>)
    requires Kahn(nodes, edges, degree, ready, order, todo) && todo != []
    ensures todo[0] in nodes
    ensures degree[todo[0]] >= 1 && todo[0] !in Members(order) + Members(ready)
    ensures var degree' := degree[todo[0] := degree[todo[0]] - 1];
            var ready' := if degree'[todo[0]] == 0 then ready + [todo[0]] else ready;
            Kahn(nodes, edges, degree', ready', order, todo[1..])
  {
    var v := todo[0];
    assert todo == [v] + todo[1..];
    assert v in Members(todo);
    assert multiset(todo) == multiset{v} + multiset(todo[1..]);
    var degree' := degree[v := degree[v] - 1];
    var ready' := if degree'[v] == 0 then ready + [v] else ready;
    assert Members(ready + [v]) == Members(ready) + {v};
    assert degree'.Keys == nodes;
  }

  lemma KahnResort(nodes: set<Id>, edges: seq<Edge>, degree: map<Id, int>, ready: seq<Id>, order: seq<Id>,
                   todo: seq<Id>, ready': seq<Id>)
    requires Kahn(nodes, edges, degree, ready, order, todo)
    requires multiset(ready') == multiset(ready)
    ensures Kahn(nodes, edges, degree, ready', order, todo)
  {
    SameElements(ready, ready');
  }

  /** When the frontier runs dry, either every node is placed and the order is topological,
      or the nodes left over feed on each other and there is a cycle. */
  lemma KahnFinish(nodes: set<Id>, edges: seq<Edge>, degree: map<Id, int>, order: seq<Id>)
    requires Closed(nodes, edges)
    requires Kahn(nodes, edges, degree, [], order, [])
    ensures |order| <= |nodes|
    ensures |order| == |nodes| ==> IsTopological(nodes, edges, order) && !Cyclic(edges)
    ensures |order| != |nodes| ==> Cyclic(edges)
  {
    DistinctCovers(order, nodes);
    if |order| == |nodes| {
      ReleasedForward(edges, order);
      TopologicalAcyclic(nodes, edges, order);
    } else {
      var rest := nodes - Members(order);
      forall v | v in rest ensures HasPredecessor(edges, rest, v) {
        assert Members([]) == {} && multiset([])[v] == 0;
        assert degree[v] != 0;
        PendingZero(edges, v, Members(order));
      }
      assert Members(order) <= nodes && Members(order) != nodes;
      var v :| v in nodes && v !in Members(order);
      assert Members([v]) == {v};
      BackwardCycle(edges, rest, [v]);
    }
  }

  lemma ReleasedForward(edges: seq<Edge>, order: seq<Id>)
    requires Distinct(order)
    requires forall j :: 0 <= j < |order| ==> Released(edges, order, j)
    ensures Forward(edges, order)
  {
    forall i, j | 0 <= i < |order| && 0 <= j < |order| && Edge(order[i], order[j]) in edges
      ensures i < j
    {
      assert Released(edges, order, j);
      assert order[i] in order[..j];
      var k :| 0 <= k < j && order[k] == order[i];
    }
  }
}
