/** `stableTopology`: the deterministic topological sort of the portable profile. It keeps
    the frontier sorted, which yields the lexicographically least topological order. */
module StableOrder {
  import opened Common
  import opened Ids
  import opened Graph
  import opened TaskModels

  /** The scheduling view of a node: its identifier and the identifiers it depends on. */
  datatype Dependent = Dependent(id: Id, dependsOn: seq<Id>)

  function Names(nodes: seq<Dependent>): (r: seq<Id>)
    ensures |r| == |nodes|
    ensures forall i :: 0 <= i < |r| ==> r[i] == nodes[i].id
  {
    seq(|nodes|, i requires 0 <= i < |nodes| => nodes[i].id)
  }

  /** One edge per listed dependency, from the dependency to the node that needs it. */
  function EdgesInto(deps: seq<Id>, id: Id): (r: seq<Edge>)
    ensures |r| == |deps|
    ensures forall i :: 0 <= i < |r| ==> r[i] == Edge(deps[i], id)
  {
    seq(|deps|, i requires 0 <= i < |deps| => Edge(deps[i], id))
  }

  function DependencyEdges(nodes: seq<Dependent>): (r: seq<Edge>) {
    if nodes == [] then []
    else
      var n := nodes[|nodes| - 1];
      DependencyEdges(nodes[..|nodes| - 1]) + EdgesInto(n.dependsOn, n.id)
  }

  ghost predicate DependsOn(nodes: seq<Dependent>, u: Id, v: Id) {
    exists n :: n in nodes && n.id == v && u in n.dependsOn
  }

  lemma {:induction false} EdgesAreDependencies(nodes: seq<Dependent>, u: Id, v: Id)
    ensures Edge(u, v) in DependencyEdges(nodes) <==> DependsOn(nodes, u, v)
  {
    if nodes != [] {
      var n := nodes[|nodes| - 1];
      var front := nodes[..|nodes| - 1];
      assert nodes == front + [n];
      EdgesAreDependencies(front, u, v);
      if DependsOn(front, u, v) {
        var m :| m in front && m.id == v && u in m.dependsOn;
        assert m in nodes;
      }
      if n.id == v && u in n.dependsOn {
        var i :| 0 <= i < |n.dependsOn| && n.dependsOn[i] == u;
        assert EdgesInto(n.dependsOn, n.id)[i] == Edge(u, v);
        assert n in nodes;
      }
    }
  }

  // ---- lexicographically least topological order ----

  ghost predicate LexAtMost(a: seq<Id>, b: seq<Id>) {
    a == b || exists k :: DiffersAt(a, b, k)
  }

  /** The lists agree before position `k` and `a` has the smaller identifier there. */
  ghost predicate DiffersAt(a: seq<Id>, b: seq<Id>, k: nat) {
    k < |a| && k < |b| && a[..k] == b[..k] && Less(a[k], b[k])
  }

  ghost predicate IsLeastTopological(nodes: set<Id>, edges: seq<Edge>, order: seq<Id>) {
    IsTopological(nodes, edges, order) &&
    forall other :: IsTopological(nodes, edges, other) ==> LexAtMost(order, other)
  }

  lemma LexAntisymmetric(a: seq<Id>, b: seq<Id>)
    requires LexAtMost(a, b) && LexAtMost(b, a)
    ensures a == b
  {
    if a != b {
      var j: nat :| DiffersAt(a, b, j);
      var k: nat :| DiffersAt(b, a, k);
      LessAsymmetric(a[j], b[j]);
      LessAsymmetric(b[k], a[k]);
    }
  }

  /** Only which edges are present matters, not the order or number of their listings. */
  lemma LeastIsUnique(nodes: set<Id>, edges: seq<Edge>, edges': seq<Edge>, a: seq<Id>, b: seq<Id>)
    requires forall e :: e in edges <==> e in edges'
    requires IsLeastTopological(nodes, edges, a) && IsLeastTopological(nodes, edges', b)
    ensures a == b
  {
    assert Forward(edges', a) && Forward(edges, b);
    assert IsTopological(nodes, edges', a) && IsTopological(nodes, edges, b);
    LexAntisymmetric(a, b);
  }

  /** `v` could be placed next after exactly the nodes of `placed`. */
  ghost predicate Available(nodes: set<Id>, edges: seq<Edge>, placed: seq<Id>, v: Id) {
    v in nodes && v !in placed && forall u :: Edge(u, v) in edges ==> u in placed
  }

  ghost predicate LeastChoice(nodes: set<Id>, edges: seq<Edge>, placed: seq<Id>, choice: Id) {
    forall v :: Available(nodes, edges, placed, v) ==> AtMost(choice, v)
  }

  ghost predicate Greedy(nodes: set<Id>, edges: seq<Edge>, order: seq<Id>) {
    forall k :: 0 <= k < |order| ==> LeastChoice(nodes, edges, order[..k], order[k])
  }

  lemma GreedyIsLeast(nodes: set<Id>, edges: seq<Edge>, order: seq<Id>)
    requires Closed(nodes, edges) && IsTopological(nodes, edges, order) && Greedy(nodes, edges, order)
    ensures IsLeastTopological(nodes, edges, order)
  {
    forall other | IsTopological(nodes, edges, other) ensures LexAtMost(order, other) {
      if order != other {
        DistinctSize(order);
        DistinctSize(other);
        var k := FirstDifference(order, other);
        AvailableAt(nodes, edges, other, k);
        assert LeastChoice(nodes, edges, order[..k], order[k]);
        assert DiffersAt(order, other, k);
      }
    }
  }

  lemma {:induction false} FirstDifference(a: seq<Id>, b: seq<Id>) returns (k: nat)
    requires |a| == |b| && a != b
    ensures k < |a| && a[..k] == b[..k] && a[k] != b[k]
  {
    k := 0;
    while a[k] == b[k]
      invariant k < |a| && a[..k] == b[..k]
      invariant exists i :: k <= i < |a| && a[i] != b[i]
      decreases |a| - k
    {
      assert a[..k + 1] == a[..k] + [a[k]] && b[..k + 1] == b[..k] + [b[k]];
      k := k + 1;
    }
  }

  lemma AvailableAt(nodes: set<Id>, edges: seq<Edge>, order: seq<Id>, k: nat)
    requires Closed(nodes, edges) && IsTopological(nodes, edges, order) && k < |order|
    ensures Available(nodes, edges, order[..k], order[k])
  {
    assert order[k] in Members(order);
    forall u | Edge(u, order[k]) in edges ensures u in order[..k] {
      var i, j := EdgePositions(nodes, edges, order, u, order[k]);
      assert j == k;
    }
  }

  // ---- the method ----

  ghost predicate DependenciesKnown(nodes: seq<Dependent>) {
    forall n, d :: n in nodes && d in n.dependsOn ==> d in Members(Names(nodes))
  }

  method StableTopology(nodes: seq<Dependent>) returns (r: Option<seq<Id>>)
    requires Distinct(Names(nodes))
    ensures r.None? <==> !DependenciesKnown(nodes) || Cyclic(DependencyEdges(nodes))
    ensures r.Some? ==> IsLeastTopological(Members(Names(nodes)), DependencyEdges(nodes), r.value)
  {
    var ids := Names(nodes);
    var keys := Members(ids);
    var known, outgoing, indegree := CountDependencies(nodes, keys);
    if !known {
      return None;
    }
    ghost var edges := DependencyEdges(nodes);
    var ready := Filter(ids, v => v in indegree && indegree[v] == 0);
    FilterDistinct(ids, v => v in indegree && indegree[v] == 0);
    KahnStart(keys, edges, indegree, ready);
    KahnResort(keys, edges, indegree, ready, [], [], Sort(ready));
    var order := PlaceAll(keys, edges, outgoing, indegree, Sort(ready));
    DistinctSize(ids);
    return if |order| == |ids| then Some(order) else None;
  }

  method PlaceAll(ghost keys: set<Id>, ghost edges: seq<Edge>, outgoing: map<Id, seq<Id>>, indegree0: map<Id, int>,
                  ready0: seq<Id>)
      returns (order: seq<Id>)
    requires Adjacent(keys, edges, outgoing, indegree0)
    requires Kahn(keys, edges, indegree0, ready0, [], []) && Sorted(ready0)
    ensures |order| != |keys| <==> Cyclic(edges)
    ensures |order| == |keys| ==> IsLeastTopological(keys, edges, order)
  {
    var ready, indegree := ready0, indegree0;
    order := [];
    while |ready| > 0
      invariant Kahn(keys, edges, indegree, ready, order, [])
      invariant Sorted(ready) && Greedy(keys, edges, order)
      decreases keys - Members(order)
    {
      PlaceNext(keys, edges, indegree, ready, order);
      var id := ready[0];
      ready := ready[1..];
      order := order + [id];
      indegree, ready := RelaxSorted(keys, edges, indegree, ready, order, Sort(outgoing[id]));
    }
    KahnFinish(keys, edges, indegree, order);
    if |order| == |keys| {
      GreedyIsLeast(keys, edges, order);
    }
  }

  /** Placing the head of a sorted frontier, its targets still to be relaxed. */
  lemma PlaceNext(keys: set<Id>, edges: seq<Edge>, indegree: map<Id, int>, ready: seq<Id>, order: seq<Id>)
    requires Closed(keys, edges) && Kahn(keys, edges, indegree, ready, order, [])
    requires Sorted(ready) && Greedy(keys, edges, order) && ready != []
    ensures Kahn(keys, edges, indegree, ready[1..], order + [ready[0]], Sort(Targets(edges, ready[0])))
    ensures Sorted(ready[1..]) && Greedy(keys, edges, order + [ready[0]])
    ensures ready[0] in keys && keys - Members(order + [ready[0]]) < keys - Members(order)
  {
    ReadyHeadLeast(keys, edges, indegree, ready, order);
    KahnPlace(keys, edges, indegree, ready, order, Sort(Targets(edges, ready[0])));
    KahnProgress(keys, edges, indegree, ready, order);
  }

  /** With a sorted frontier the next node is the least available one. */
  lemma ReadyHeadLeast(nodes: set<Id>, edges: seq<Edge>, degree: map<Id, int>, ready: seq<Id>, order: seq<Id>)
    requires Kahn(nodes, edges, degree, ready, order, []) && ready != [] && Sorted(ready)
    requires Greedy(nodes, edges, order)
    ensures Greedy(nodes, edges, order + [ready[0]])
  {
    var placed := order + [ready[0]];
    forall k | 0 <= k < |placed| ensures LeastChoice(nodes, edges, placed[..k], placed[k]) {
      if k < |order| {
        assert placed[..k] == order[..k];
        assert LeastChoice(nodes, edges, order[..k], order[k]);
      } else {
        assert placed[..k] == order;
        forall v | Available(nodes, edges, order, v) ensures AtMost(ready[0], v) {
          PendingZero(edges, v, Members(order));
          assert multiset([])[v] == 0;
          assert v in Members(ready);
        }
      }
    }
  }

  method RelaxSorted(ghost nodes: set<Id>, ghost edges: seq<Edge>, degree0: map<Id, int>, ready0: seq<Id>,
                     ghost order: seq<Id>, next: seq<Id>)
      returns (degree: map<Id, int>, ready: seq<Id>)
    requires Kahn(nodes, edges, degree0, ready0, order, next) && Sorted(ready0)
    ensures Kahn(nodes, edges, degree, ready, order, []) && Sorted(ready)
  {
    degree, ready := degree0, ready0;
    assert next[0..] == next;
    for j := 0 to |next|
      invariant Kahn(nodes, edges, degree, ready, order, next[j..]) && Sorted(ready)
    {
      RelaxNext(nodes, edges, degree, ready, order, next[j..]);
      assert next[j..][1..] == next[j + 1..];
      var v := next[j];
      degree := degree[v := degree[v] - 1];
      if degree[v] == 0 {
        ready := Sort(ready + [v]);
      }
    }
    assert next[|next|..] == [];
  }

  /** Relaxing one target, with the frontier sorted again when it is released. */
  lemma RelaxNext(nodes: set<Id>, edges: seq<Edge>, degree: map<Id, int>, ready: seq<Id>, order: seq<Id>, todo: seq<Id>)
    requires todo != [] && Kahn(nodes, edges, degree, ready, order, todo) && Sorted(ready)
    ensures todo[0] in degree
    ensures var v := todo[0];
            var degree' := degree[v := degree[v] - 1];
            var ready' := if degree'[v] == 0 then Sort(ready + [v]) else ready;
            Kahn(nodes, edges, degree', ready', order, todo[1..]) && Sorted(ready')
  {
    KahnRelax(nodes, edges, degree, ready, order, todo);
    var v := todo[0];
    var degree' := degree[v := degree[v] - 1];
    if degree'[v] == 0 {
      KahnResort(nodes, edges, degree', ready + [v], order, todo[1..], Sort(ready + [v]));
    }
  }

  /** In-degrees and adjacency over all nodes, or `false` at the first unknown dependency. */
  method CountDependencies(nodes: seq<Dependent>, keys: set<Id>)
      returns (known: bool, outgoing: map<Id, seq<Id>>, indegree: map<Id, int>)
    requires keys == Members(Names(nodes))
    ensures known <==> DependenciesKnown(nodes)
    ensures known ==> Adjacent(keys, DependencyEdges(nodes), outgoing, indegree)
  {
    outgoing := map v | v in keys :: [];
    indegree := map v | v in keys :: 0;
    known := true;
    for i := 0 to |nodes|
      invariant Adjacent(keys, DependencyEdges(nodes[..i]), outgoing, indegree)
      invariant KnownIn(nodes[..i], keys)
    {
      NextDependent(nodes, i);
      known, outgoing, indegree := CountInto(keys, nodes[i], DependencyEdges(nodes[..i]), outgoing, indegree);
      if !known {
        return false, outgoing, indegree;
      }
      KnownNext(nodes, i, keys);
    }
    assert nodes[..|nodes|] == nodes;
    return true, outgoing, indegree;
  }

  ghost predicate KnownIn(nodes: seq<Dependent>, keys: set<Id>) {
    forall n, d :: n in nodes && d in n.dependsOn ==> d in keys
  }

  lemma KnownNext(nodes: seq<Dependent>, i: nat, keys: set<Id>)
    requires i < |nodes| && KnownIn(nodes[..i], keys) && forall d :: d in nodes[i].dependsOn ==> d in keys
    ensures KnownIn(nodes[..i + 1], keys)
  {
    assert nodes[..i + 1] == nodes[..i] + [nodes[i]];
  }

  lemma NextDependent(nodes: seq<Dependent>, i: nat)
    requires i < |nodes|
    ensures nodes[..i + 1] == nodes[..i] + [nodes[i]] && nodes[i] in nodes
    ensures nodes[i].id in Members(Names(nodes))
    ensures DependencyEdges(nodes[..i + 1])
            == DependencyEdges(nodes[..i]) + EdgesInto(nodes[i].dependsOn, nodes[i].id)
  {
    assert Names(nodes)[i] == nodes[i].id;
    assert nodes[..i + 1][..i] == nodes[..i];
  }

  lemma EdgesIntoStep(before: seq<Edge>, deps: seq<Id>, id: Id, j: nat)
    requires j < |deps|
    ensures before + EdgesInto(deps[..j], id) + [Edge(deps[j], id)] == before + EdgesInto(deps[..j + 1], id)
  {
  }

  method CountInto(keys: set<Id>, node: Dependent, ghost before: seq<Edge>,
                   outgoing0: map<Id, seq<Id>>, indegree0: map<Id, int>)
      returns (known: bool, outgoing: map<Id, seq<Id>>, indegree: map<Id, int>)
    requires node.id in keys
    requires Adjacent(keys, before, outgoing0, indegree0)
    ensures known <==> forall d :: d in node.dependsOn ==> d in keys
    ensures known ==> Adjacent(keys, before + EdgesInto(node.dependsOn, node.id), outgoing, indegree)
  {
    outgoing, indegree := outgoing0, indegree0;
    assert before + EdgesInto(node.dependsOn[..0], node.id) == before;
    for j := 0 to |node.dependsOn|
      invariant Adjacent(keys, before + EdgesInto(node.dependsOn[..j], node.id), outgoing, indegree)
      invariant forall d :: d in node.dependsOn[..j] ==> d in keys
    {
      var dependency := node.dependsOn[j];
      assert dependency in node.dependsOn;
      if dependency !in keys {
        return false, outgoing, indegree;
      }
      ghost var e := Edge(dependency, node.id);
      EdgesIntoStep(before, node.dependsOn, node.id, j);
      AdjacentStep(keys, before + EdgesInto(node.dependsOn[..j], node.id), e, outgoing, indegree);
      indegree := indegree[node.id := indegree[node.id] + 1];
      outgoing := outgoing[dependency := outgoing[dependency] + [node.id]];
    }
    assert node.dependsOn[..|node.dependsOn|] == node.dependsOn;
    known := true;
  }
}
