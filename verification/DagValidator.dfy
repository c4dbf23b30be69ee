/** `validateDag`: structural checks and Kahn's topological sort over the edge list. */
module DagValidator {
  import opened Common
  import opened Ids
  import opened Graph
  import opened TaskModels

  const MAX_DAG_NODES := 32
  const MAX_CONDITION_LEN := 512

  datatype Fault =
    | NoNodes
    | TooLarge
    | DuplicateId(id: Id)
    | ConditionTooLong(id: Id)
    | UnknownSource(id: Id)
    | UnknownTarget(id: Id)
    | UnknownUpstream(id: Id, upstream: Id)
    | Cycle
    | NoRoot
    | NoTerminal

  datatype DagResult =
    | Valid(order: seq<Id>, roots: seq<Id>, terminals: seq<Id>)
    | Invalid(fault: Fault)

  // The checks in the order the validator makes them.

  ghost predicate Sized(dag: TaskDag) {
    0 < |dag.nodes| <= MAX_DAG_NODES
  }

  ghost predicate DistinctNodes(dag: TaskDag) {
    Sized(dag) && Distinct(IdsOf(dag.nodes))
  }

  ghost predicate ConditionsFit(dag: TaskDag) {
    DistinctNodes(dag) && forall n :: n in dag.nodes ==> |n.condition| <= MAX_CONDITION_LEN
  }

  ghost predicate EdgesKnown(dag: TaskDag) {
    ConditionsFit(dag) && Closed(NodeIds(dag), dag.edges)
  }

  ghost predicate WellFormed(dag: TaskDag) {
    EdgesKnown(dag) &&
    forall n, u :: n in dag.nodes && u in n.inputFrom ==> u in NodeIds(dag)
  }

  ghost predicate LinksTo(edges: seq<Edge>, v: Id) {
    exists u :: Edge(u, v) in edges
  }

  ghost predicate LinksFrom(edges: seq<Edge>, u: Id) {
    exists v :: Edge(u, v) in edges
  }

  method ValidateDag(dag: TaskDag) returns (r: DagResult)
    ensures r.Valid? <==> WellFormed(dag) && !Cyclic(dag.edges)
    ensures r == Invalid(Cycle) <==> WellFormed(dag) && Cyclic(dag.edges)
    ensures r == Invalid(NoNodes) <==> |dag.nodes| == 0
    ensures r == Invalid(TooLarge) <==> |dag.nodes| > MAX_DAG_NODES
    ensures r.Invalid? ==> (r.fault.DuplicateId? <==> Sized(dag) && !DistinctNodes(dag))
    ensures r.Invalid? ==> (r.fault.ConditionTooLong? <==> DistinctNodes(dag) && !ConditionsFit(dag))
    ensures r.Invalid? ==>
      (r.fault.UnknownSource? || r.fault.UnknownTarget? <==> ConditionsFit(dag) && !EdgesKnown(dag))
    ensures r.Invalid? ==> (r.fault.UnknownUpstream? <==> EdgesKnown(dag) && !WellFormed(dag))
    ensures r != Invalid(NoRoot) && r != Invalid(NoTerminal)
    ensures r.Valid? ==> IsTopological(NodeIds(dag), dag.edges, r.order) && |r.order| == |dag.nodes|
    ensures r.Valid? ==> r.roots != [] && r.terminals != []
    ensures r.Valid? ==> forall v :: v in r.roots <==> v in NodeIds(dag) && !LinksTo(dag.edges, v)
    ensures r.Valid? ==> forall v :: v in r.terminals <==> v in NodeIds(dag) && !LinksFrom(dag.edges, v)
  {
    var nodeFault, nodeIds := CheckNodes(dag);
    if nodeFault.Some? {
      return Invalid(nodeFault.value);
    }

    var edgeFault, adjacency, inDegree := BuildAdjacency(dag, nodeIds);
    if edgeFault.Some? {
      return Invalid(edgeFault.value);
    }

    var inputFault := CheckInputs(dag, nodeIds);
    if inputFault.Some? {
      return Invalid(inputFault.value);
    }

    var order := KahnSort(dag, nodeIds, adjacency, inDegree);
    DistinctSize(IdsOf(dag.nodes));
    if |order| != |dag.nodes| {
      return Invalid(Cycle);
    }

    var roots, terminals := Ends(dag, nodeIds, order);
    if |roots| == 0 {
      return Invalid(NoRoot);
    }
    if |terminals| == 0 {
      return Invalid(NoTerminal);
    }
    return Valid(order, roots, terminals);
  }

  lemma DuplicateAt(ids: seq<Id>, i: nat)
    requires i < |ids| && ids[i] in ids[..i]
    ensures !Distinct(ids)
  {
    var k :| 0 <= k < i && ids[..i][k] == ids[i];
    assert ids[k] == ids[i];
  }

  /** The checks on the nodes alone, in source order. */
  method CheckNodes(dag: TaskDag) returns (fault: Option<Fault>, nodeIds: set<Id>)
    ensures fault.None? <==> ConditionsFit(dag)
    ensures fault.None? ==> nodeIds == NodeIds(dag)
    ensures fault == Some(NoNodes) <==> |dag.nodes| == 0
    ensures fault == Some(TooLarge) <==> |dag.nodes| > MAX_DAG_NODES
    ensures fault.Some? ==> (fault.value.DuplicateId? <==> Sized(dag) && !DistinctNodes(dag))
    ensures fault.Some? ==> (fault.value.ConditionTooLong? <==> DistinctNodes(dag) && !ConditionsFit(dag))
    ensures fault.Some? ==>
              || fault == Some(NoNodes) || fault == Some(TooLarge)
              || fault.value.DuplicateId? || fault.value.ConditionTooLong?
  {
    if |dag.nodes| == 0 {
      return Some(NoNodes), {};
    }
    if |dag.nodes| > MAX_DAG_NODES {
      return Some(TooLarge), {};
    }
    fault, nodeIds := CollectIds(dag);
    if fault.None? {
      fault := CheckConditions(dag.nodes);
    }
  }

  method CollectIds(dag: TaskDag) returns (fault: Option<Fault>, nodeIds: set<Id>)
    ensures fault.None? <==> Distinct(IdsOf(dag.nodes))
    ensures fault.None? ==> nodeIds == NodeIds(dag)
    ensures fault.Some? ==> fault.value.DuplicateId?
  {
    ghost var ids := IdsOf(dag.nodes);
    nodeIds := {};
    for i := 0 to |dag.nodes|
      invariant Distinct(ids[..i]) && nodeIds == Members(ids[..i])
    {
      var id := dag.nodes[i].id;
      assert ids[..i + 1] == ids[..i] + [ids[i]];
      if id in nodeIds {
        DuplicateAt(ids, i);
        return Some(DuplicateId(id)), nodeIds;
      }
      nodeIds := nodeIds + {id};
    }
    assert ids[..|ids|] == ids;
    return None, nodeIds;
  }

  method CheckConditions(nodes: seq<DagNode>) returns (fault: Option<Fault>)
    ensures fault.None? <==> forall n :: n in nodes ==> |n.condition| <= MAX_CONDITION_LEN
    ensures fault.Some? ==> fault.value.ConditionTooLong?
  {
    for i := 0 to |nodes|
      invariant forall n :: n in nodes[..i] ==> |n.condition| <= MAX_CONDITION_LEN
    {
      if |nodes[i].condition| > MAX_CONDITION_LEN {
        assert nodes[i] in nodes;
        return Some(ConditionTooLong(nodes[i].id));
      }
    }
    return None;
  }

  /** Adjacency lists and in-degrees, unless an edge names an unknown node. */
  method BuildAdjacency(dag: TaskDag, nodeIds: set<Id>)
      returns (fault: Option<Fault>, adjacency: map<Id, seq<Id>>, inDegree: map<Id, int>)
    ensures fault.None? <==> Closed(nodeIds, dag.edges)
    ensures fault.Some? ==> fault.value.UnknownSource? || fault.value.UnknownTarget?
    ensures fault.Some? ==> fault.value.id !in nodeIds
    ensures fault.None? ==> Adjacent(nodeIds, dag.edges, adjacency, inDegree)
  {
    adjacency := map v | v in nodeIds :: [];
    inDegree := map v | v in nodeIds :: 0;
    fault := None;
    for i := 0 to |dag.edges|
      invariant Adjacent(nodeIds, dag.edges[..i], adjacency, inDegree)
    {
      var edge := dag.edges[i];
      assert edge in dag.edges;
      if edge.from !in nodeIds {
        return Some(UnknownSource(edge.from)), adjacency, inDegree;
      }
      if edge.to !in nodeIds {
        return Some(UnknownTarget(edge.to)), adjacency, inDegree;
      }
      AdjacentNext(nodeIds, dag.edges, i, adjacency, inDegree);
      adjacency := adjacency[edge.from := adjacency[edge.from] + [edge.to]];
      inDegree := inDegree[edge.to := inDegree[edge.to] + 1];
    }
    assert dag.edges[..|dag.edges|] == dag.edges;
  }

  lemma AdjacentNext(nodeIds: set<Id>, edges: seq<Edge>, i: nat, adjacency: map<Id, seq<Id>>, inDegree: map<Id, int>)
    requires i < |edges| && Adjacent(nodeIds, edges[..i], adjacency, inDegree)
    requires edges[i].from in nodeIds && edges[i].to in nodeIds
    ensures var e := edges[i];
            Adjacent(nodeIds, edges[..i + 1],
                     adjacency[e.from := adjacency[e.from] + [e.to]], inDegree[e.to := inDegree[e.to] + 1])
  {
    assert edges[..i + 1] == edges[..i] + [edges[i]];
    AdjacentStep(nodeIds, edges[..i], edges[i], adjacency, inDegree);
  }

  method CheckInputs(dag: TaskDag, nodeIds: set<Id>) returns (fault: Option<Fault>)
    ensures fault.None? <==> forall n, u :: n in dag.nodes && u in n.inputFrom ==> u in nodeIds
    ensures fault.Some? ==> fault.value.UnknownUpstream? && fault.value.upstream !in nodeIds
  {
    for i := 0 to |dag.nodes|
      invariant forall n, u :: n in dag.nodes[..i] && u in n.inputFrom ==> u in nodeIds
    {
      var node := dag.nodes[i];
      for j := 0 to |node.inputFrom|
        invariant forall u :: u in node.inputFrom[..j] ==> u in nodeIds
      {
        if node.inputFrom[j] !in nodeIds {
          assert node in dag.nodes && node.inputFrom[j] in node.inputFrom;
          return Some(UnknownUpstream(node.id, node.inputFrom[j]));
        }
      }
    }
    return None;
  }

  /** Kahn's algorithm with a first-in first-out frontier. The order it returns is short
      exactly when the edges contain a cycle. */
  method KahnSort(dag: TaskDag, nodeIds: set<Id>, adjacency: map<Id, seq<Id>>, inDegree: map<Id, int>)
      returns (order: seq<Id>)
    requires nodeIds == NodeIds(dag) && Distinct(IdsOf(dag.nodes))
    requires Adjacent(nodeIds, dag.edges, adjacency, inDegree)
    ensures |order| != |nodeIds| <==> Cyclic(dag.edges)
    ensures |order| == |nodeIds| ==> IsTopological(nodeIds, dag.edges, order)
  {
    var degree := inDegree;
    var ids := IdsOf(dag.nodes);
    var queue := Filter(ids, v => v in inDegree && inDegree[v] == 0);
    FilterDistinct(ids, v => v in inDegree && inDegree[v] == 0);
    order := [];
    KahnStart(nodeIds, dag.edges, degree, queue);
    while |queue| > 0
      invariant Kahn(nodeIds, dag.edges, degree, queue, order, [])
      decreases nodeIds - Members(order)
    {
      KahnPlace(nodeIds, dag.edges, degree, queue, order, Targets(dag.edges, queue[0]));
      KahnProgress(nodeIds, dag.edges, degree, queue, order);
      var cur := queue[0];
      queue := queue[1..];
      order := order + [cur];
      degree, queue := Relax(nodeIds, dag.edges, degree, queue, order, adjacency[cur]);
    }
    KahnFinish(nodeIds, dag.edges, degree, order);
  }

  /** Decrement each listed target, appending to the frontier those that reach zero. */
  method Relax(ghost nodeIds: set<Id>, ghost edges: seq<Edge>, degree0: map<Id, int>, queue0: seq<Id>,
               ghost order: seq<Id>, next: seq<Id>)
      returns (degree: map<Id, int>, queue: seq<Id>)
    requires Kahn(nodeIds, edges, degree0, queue0, order, next)
    ensures Kahn(nodeIds, edges, degree, queue, order, [])
  {
    degree, queue := degree0, queue0;
    assert next[0..] == next;
    for j := 0 to |next|
      invariant Kahn(nodeIds, edges, degree, queue, order, next[j..])
    {
      KahnRelax(nodeIds, edges, degree, queue, order, next[j..]);
      assert next[j..][1..] == next[j + 1..];
      var v := next[j];
      degree := degree[v := degree[v] - 1];
      if degree[v] == 0 {
        queue := queue + [v];
      }
    }
    assert next[|next|..] == [];
  }

  /** Roots and terminals of a placed order, from degrees counted afresh over the edges. */
  method Ends(dag: TaskDag, nodeIds: set<Id>, order: seq<Id>) returns (roots: seq<Id>, terminals: seq<Id>)
    requires Closed(nodeIds, dag.edges) && IsTopological(nodeIds, dag.edges, order) && order != []
    ensures forall v :: v in roots <==> v in nodeIds && !LinksTo(dag.edges, v)
    ensures forall v :: v in terminals <==> v in nodeIds && !LinksFrom(dag.edges, v)
    ensures roots != [] && terminals != []
  {
    var inDegree, outDegree := CountDegrees(dag.edges, nodeIds);
    roots := Filter(order, v => v in inDegree && inDegree[v] == 0);
    terminals := Filter(order, v => v in outDegree && outDegree[v] == 0);
    forall v ensures v in order <==> v in nodeIds {
      assert v in order <==> v in Members(order);
    }
    EndpointsFree(nodeIds, dag.edges, order);
    assert order[0] in roots && order[|order| - 1] in terminals;
  }

  method CountDegrees(edges: seq<Edge>, nodeIds: set<Id>) returns (inDegree: map<Id, int>, outDegree: map<Id, int>)
    requires Closed(nodeIds, edges)
    ensures Counts(edges, nodeIds, inDegree, outDegree)
  {
    inDegree, outDegree := Zeros(nodeIds), Zeros(nodeIds);
    assert edges[..0] == [];
    NothingCounted(nodeIds);
    for i := 0 to |edges|
      invariant Counts(edges[..i], nodeIds, inDegree, outDegree)
    {
      var e := edges[i];
      assert e in edges && e.from in nodeIds && e.to in nodeIds;
      CountsNext(edges, i, nodeIds, inDegree, outDegree);
      inDegree := inDegree[e.to := inDegree[e.to] + 1];
      outDegree := outDegree[e.from := outDegree[e.from] + 1];
    }
    assert edges[..|edges|] == edges;
  }

  /** Degrees over all nodes that are zero exactly where no edge arrives, or leaves. */
  ghost predicate Counts(edges: seq<Edge>, nodeIds: set<Id>, inDegree: map<Id, int>, outDegree: map<Id, int>) {
    CountsIn(edges, nodeIds, inDegree) && CountsOut(edges, nodeIds, outDegree)
  }

  ghost predicate CountsIn(edges: seq<Edge>, nodeIds: set<Id>, degree: map<Id, int>) {
    degree.Keys == nodeIds && forall v :: v in nodeIds ==> degree[v] >= 0 && (degree[v] == 0 <==> !LinksTo(edges, v))
  }

  ghost predicate CountsOut(edges: seq<Edge>, nodeIds: set<Id>, degree: map<Id, int>) {
    degree.Keys == nodeIds && forall v :: v in nodeIds ==> degree[v] >= 0 && (degree[v] == 0 <==> !LinksFrom(edges, v))
  }

  function Zeros(nodeIds: set<Id>): map<Id, int> {
    map v | v in nodeIds :: 0
  }

  lemma NothingCounted(nodeIds: set<Id>)
    ensures Counts([], nodeIds, Zeros(nodeIds), Zeros(nodeIds))
  {
  }

  lemma CountsNext(edges: seq<Edge>, i: nat, nodeIds: set<Id>, inDegree: map<Id, int>, outDegree: map<Id, int>)
    requires i < |edges| && Counts(edges[..i], nodeIds, inDegree, outDegree)
    requires edges[i].from in nodeIds && edges[i].to in nodeIds
    ensures var e := edges[i];
            Counts(edges[..i + 1], nodeIds, inDegree[e.to := inDegree[e.to] + 1],
                   outDegree[e.from := outDegree[e.from] + 1])
  {
    CountsInNext(edges, i, nodeIds, inDegree);
    CountsOutNext(edges, i, nodeIds, outDegree);
  }

  lemma CountsInNext(edges: seq<Edge>, i: nat, nodeIds: set<Id>, degree: map<Id, int>)
    requires i < |edges| && CountsIn(edges[..i], nodeIds, degree) && edges[i].to in nodeIds
    ensures CountsIn(edges[..i + 1], nodeIds, degree[edges[i].to := degree[edges[i].to] + 1])
  {
    LinksGrow(edges, i);
  }

  lemma CountsOutNext(edges: seq<Edge>, i: nat, nodeIds: set<Id>, degree: map<Id, int>)
    requires i < |edges| && CountsOut(edges[..i], nodeIds, degree) && edges[i].from in nodeIds
    ensures CountsOut(edges[..i + 1], nodeIds, degree[edges[i].from := degree[edges[i].from] + 1])
  {
    LinksGrow(edges, i);
  }

  lemma LinksGrow(edges: seq<Edge>, i: nat)
    requires i < |edges|
    ensures forall v :: LinksTo(edges[..i + 1], v) <==> LinksTo(edges[..i], v) || v == edges[i].to
    ensures forall v :: LinksFrom(edges[..i + 1], v) <==> LinksFrom(edges[..i], v) || v == edges[i].from
  {
    var e := edges[i];
    assert edges[..i + 1] == edges[..i] + [e];
    assert Edge(e.from, e.to) in edges[..i + 1];
    forall v ensures LinksTo(edges[..i + 1], v) <==> LinksTo(edges[..i], v) || v == e.to {
      if LinksTo(edges[..i], v) {
        var u :| Edge(u, v) in edges[..i];
        assert Edge(u, v) in edges[..i + 1];
      }
    }
    forall v ensures LinksFrom(edges[..i + 1], v) <==> LinksFrom(edges[..i], v) || v == e.from {
      if LinksFrom(edges[..i], v) {
        var u :| Edge(v, u) in edges[..i];
        assert Edge(v, u) in edges[..i + 1];
      }
    }
  }

  /** In a topological order nothing points at the first node and the last points nowhere. */
  lemma EndpointsFree(nodeIds: set<Id>, edges: seq<Edge>, order: seq<Id>)
    requires Closed(nodeIds, edges) && IsTopological(nodeIds, edges, order) && order != []
    ensures !LinksTo(edges, order[0]) && !LinksFrom(edges, order[|order| - 1])
  {
  }
}
