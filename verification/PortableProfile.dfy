/** `evaluateOrchestration`: one deterministic transcript per task. */
module PortableProfile {
  import opened Common
  import opened Ids
  import opened Graph
  import opened Json
  import opened StableOrder
  import opened PortableModel
  import opened PortableAttempts
  import opened PortableCompensation

  // ---- aggregation ----

  function Lookup(results: Results, id: Id): (r: Option<Json>)
    ensures r.Some? <==> exists p :: p in results && p.0 == id
    ensures r.Some? ==> (id, r.value) in results
  {
    if results == [] then None
    else
      assert results == results[..|results| - 1] + [results[|results| - 1]];
      if results[|results| - 1].0 == id then Some(results[|results| - 1].1)
      else Lookup(results[..|results| - 1], id)
  }

  ghost predicate HasDependents(nodes: map<Id, TaskNode>, id: Id) {
    exists v :: v in nodes && id in nodes[v].dependsOn
  }

  /** Results of the completed nodes nothing depends on, in topological order. */
  ghost function EndValues(nodes: map<Id, TaskNode>, topo: seq<Id>, p: Progress): seq<Json> {
    if topo == [] then []
    else
      var id := topo[|topo| - 1];
      EndValues(nodes, topo[..|topo| - 1], p) +
      (if !HasDependents(nodes, id) && id in p.states && p.states[id] == Completed && Lookup(p.results, id).Some?
       then [Lookup(p.results, id).value] else [])
  }

  /** One object merged over another: later keys win, except that `merge_all` joins arrays. */
  function MergeFields(strategy: Strategy, output: map<Text, Json>, fields: map<Text, Json>): map<Text, Json> {
    output + map k | k in fields ::
      if strategy == MergeAll && k in output && output[k].Arr? && fields[k].Arr?
      then Arr(output[k].items + fields[k].items) else fields[k]
  }

  function MergeAllValues(strategy: Strategy, values: seq<Json>): map<Text, Json> {
    if values == [] then map[]
    else
      var output := MergeAllValues(strategy, values[..|values| - 1]);
      var value := values[|values| - 1];
      if value.Obj? then MergeFields(strategy, output, value.fields) else output
  }

  function Combine(strategy: Strategy, values: seq<Json>): Json {
    if values == [] then Null
    else if strategy == All then Arr(values)
    else Obj(MergeAllValues(strategy, values))
  }

  method AggregateResults(strategy: Strategy, nodes: map<Id, TaskNode>, topo: seq<Id>, p: Progress) returns (r: Json)
    ensures r == Combine(strategy, EndValues(nodes, topo, p))
  {
    var hasOutgoing := set v, d | v in nodes && d in nodes[v].dependsOn :: d;
    var values := [];
    for i := 0 to |topo|
      invariant values == EndValues(nodes, topo[..i], p)
    {
      var id := topo[i];
      assert topo[..i + 1][..i] == topo[..i];
      assert id in hasOutgoing <==> HasDependents(nodes, id);
      var found := Lookup(p.results, id);
      if id !in hasOutgoing && id in p.states && p.states[id] == Completed && found.Some? {
        values := values + [found.value];
      }
    }
    assert topo[..|topo|] == topo;
    if |values| == 0 {
      return Null;
    }
    if strategy == All {
      return Arr(values);
    }
    var output := MergeObjects(strategy, values);
    return Obj(output);
  }

  method MergeObjects(strategy: Strategy, values: seq<Json>) returns (output: map<Text, Json>)
    ensures output == MergeAllValues(strategy, values)
  {
    output := map[];
    for i := 0 to |values|
      invariant output == MergeAllValues(strategy, values[..i])
    {
      assert values[..i + 1][..i] == values[..i];
      if values[i].Obj? {
        output := MergeFields(strategy, output, values[i].fields);
      }
    }
    assert values[..|values|] == values;
  }

  // ---- the walk over the topological order ----

  /** Resolve every mapped parameter, or fail on the first path that cannot be resolved. */
  function MapParams(ev: Evaluator, mapping: seq<(Text, Text)>, results: Results): Option<map<Text, Json>> {
    if mapping == [] then Some(map[])
    else
      var params := MapParams(ev, mapping[..|mapping| - 1], results);
      var (name, path) := mapping[|mapping| - 1];
      if params.None? then None
      else
        var value := ev.resolve(path, results);
        if value.None? then None else Some(params.value[name := value.value])
  }

  function OrElse(o: Option<int>, fallback: int): int {
    if o.Some? then o.value else fallback
  }

  /** How a node leaves the walk: with progress for the next node, or with the transcript. */
  datatype Visit = Next(p: Progress) | Stop(t: Transcript)

  function FailBefore(p: Progress, id: Id, error: string): Transcript {
    Conclude(p.(events := p.events + [NodeEntered(id, Failed)], states := p.states[id := Failed],
                attempts := p.attempts[id := 0]),
             TaskFailed, TerminalFailed, Some(error), Null, [])
  }

  function AfterAttempts(p: Progress, id: Id, run: AttemptRun): Progress {
    Progress(
      p.events + run.events,
      if run.end.Succeeded? then p.results + [(id, run.end.result)] else p.results,
      if run.end.Succeeded? then p.states[id := Completed]
      else if run.end.GaveUp? then p.states[id := Failed] else p.states,
      p.attempts[id := run.count],
      p.mapped)
  }

  ghost function AfterFailure(task: Options, nodes: map<Id, TaskNode>, topo: seq<Id>,
                              p: Progress, id: Id, end: AttemptEnd): Transcript
    requires forall x :: x in topo ==> x in nodes
  {
    var undo := Compensation(task.policy, nodes, topo, p.states, id);
    var error := if undo.error.Some? then undo.error.value
                 else if end.GaveUp? then end.error else DELEGATE_REJECTED;
    Conclude(p.(events := p.events + undo.events, states := undo.states),
             TaskFailed, TerminalFailed, Some(error), Null, undo.order)
  }

  ghost function Visited(task: Options, ev: Evaluator, nodes: map<Id, TaskNode>, topo: seq<Id>, p: Progress,
                         id: Id): Visit
    requires id in nodes && forall x :: x in topo ==> x in nodes
  {
    var node := nodes[id];
    if task.cancelBefore == Some(id) then
      Stop(Conclude(p, TaskCancelled, TerminalCancelled, Some(TASK_CANCELLED), Null, []))
    else
      var verdict := if node.condition.Some? then ev.condition(node.condition.value, p.results) else Some(true);
      if verdict.None? then Stop(FailBefore(p, id, CONDITION_EVAL_ERROR))
      else if !verdict.value then
        Next(p.(states := p.states[id := Skipped], attempts := p.attempts[id := 0],
                events := p.events + [NodeEntered(id, Skipped)]))
      else
        var params := if node.mapping.Some? then MapParams(ev, node.mapping.value, p.results) else Some(map[]);
        if params.None? then Stop(FailBefore(p, id, INPUT_MAPPING_ERROR))
        else
          var p1 := if node.mapping.Some? then p.(mapped := p.mapped[id := Obj(params.value)]) else p;
          var run := AttemptsFrom(node, OrElse(node.maxRetries, OrElse(task.maxRetries, 0)), 0);
          var p2 := AfterAttempts(p1, id, run);
          if run.end.Succeeded? then Next(p2)
          else Stop(AfterFailure(task, nodes, topo, p2, id, run.end))
  }

  ghost function Walk(task: Options, ev: Evaluator, nodes: map<Id, TaskNode>, topo: seq<Id>, i: nat,
                      p: Progress): Transcript
    requires i <= |topo| && forall x :: x in topo ==> x in nodes
    decreases |topo| - i
  {
    if i == |topo| then
      Conclude(p, TaskCompleted, TerminalCompleted, None, Combine(task.strategy, EndValues(nodes, topo, p)), [])
    else
      match Visited(task, ev, nodes, topo, p, topo[i])
      case Next(p') => Walk(task, ev, nodes, topo, i + 1, p')
      case Stop(t) => t
  }

  /** The transcript of a task, given the order its nodes are visited in. */
  ghost function Transcribe(task: Options, ev: Evaluator, nodes: map<Id, TaskNode>, topo: seq<Id>): Transcript
    requires forall x :: x in topo ==> x in nodes
  {
    if task.preflight && exists id :: id in topo && !nodes[id].preflightAvailable then
      Transcript([TaskPreflight, TaskFailed], TerminalFailed, Some(RESOURCE_INSUFFICIENT), Null, map[], map[], map[],
                 [])
    else
      var first := if task.preflight then [TaskPreflight, TaskRunning] else [TaskRunning];
      Walk(task, ev, nodes, topo, 0, Progress(first, [], map[], map[], map[]))
  }

  /** What the evaluator may answer for a task. The answer is unique, whatever the order in
      which the node list names the nodes: see `PermutationInvariant`. */
  ghost predicate Produces(task: Task, ev: Evaluator, t: Transcript) {
    var views := Views(task.nodes);
    var edges := DependencyEdges(views);
    if !Distinct(Names(views)) then t == EmptyFailure(TASK_DAG_INVALID)
    else if !DependenciesKnown(views) || Cyclic(edges) then t == EmptyFailure(TASK_DAG_CYCLE)
    else
      exists topo ::
        && IsLeastTopological(Members(Names(views)), edges, topo)
        && (forall x :: x in topo ==> x in NodeMap(task.nodes))
        && t == Transcribe(task.options, ev, NodeMap(task.nodes), topo)
  }

  method EvaluateOrchestration(task: Task, ev: Evaluator) returns (t: Transcript)
    ensures Produces(task, ev, t)
  {
    var nodes: map<Id, TaskNode> := map[];
    var views := Views(task.nodes);
    ghost var ids := Names(views);
    for i := 0 to |task.nodes|
      invariant nodes == NodeMap(task.nodes[..i])
      invariant nodes.Keys == Members(ids[..i]) && Distinct(ids[..i])
    {
      var raw := task.nodes[i];
      assert ids[..i + 1] == ids[..i] + [raw.id];
      assert task.nodes[..i + 1][..i] == task.nodes[..i];
      if raw.id in nodes {
        ghost var k :| 0 <= k < i && ids[..i][k] == raw.id;
        assert ids[k] == ids[i];
        return EmptyFailure(TASK_DAG_INVALID);
      }
      nodes := nodes[raw.id := raw];
    }
    assert ids[..|ids|] == ids && task.nodes[..|task.nodes|] == task.nodes;
    var order := StableTopology(views);
    if order.None? {
      return EmptyFailure(TASK_DAG_CYCLE);
    }
    var topo := order.value;
    GraphOfNodes(task, topo);
    t := RunInOrder(task.options, ev, nodes, topo);
  }

  /** The node map sees the same graph as the dependency edges. */
  lemma GraphOfNodes(task: Task, topo: seq<Id>)
    requires Distinct(NodeNames(task.nodes)) && DependenciesKnown(Views(task.nodes))
    requires IsTopological(Members(NodeNames(task.nodes)), DependencyEdges(Views(task.nodes)), topo)
    ensures KnownDependencies(NodeMap(task.nodes)) && Respects(NodeMap(task.nodes), topo)
    ensures forall x :: x in topo ==> x in NodeMap(task.nodes)
  {
    var views := Views(task.nodes);
    var nodes := NodeMap(task.nodes);
    NodeMapContents(task.nodes);
    forall x | x in topo ensures x in nodes {
      assert x in Members(topo);
    }
    forall u, v | v in nodes && u in nodes[v].dependsOn
      ensures u in nodes && Edge(u, v) in DependencyEdges(views)
    {
      var k :| 0 <= k < |task.nodes| && task.nodes[k] == nodes[v];
      assert views[k] == Dependent(v, nodes[v].dependsOn);
      EdgesAreDependencies(views, u, v);
    }
  }

  method RunInOrder(task: Options, ev: Evaluator, nodes: map<Id, TaskNode>, topo: seq<Id>)
      returns (t: Transcript)
    requires forall x :: x in topo ==> x in nodes
    requires KnownDependencies(nodes)
    ensures t == Transcribe(task, ev, nodes, topo)
  {
    var events := [];
    if task.preflight {
      events := [TaskPreflight];
      if exists id :: id in topo && !nodes[id].preflightAvailable {
        return Transcript([TaskPreflight, TaskFailed], TerminalFailed, Some(RESOURCE_INSUFFICIENT), Null, map[],
                          map[], map[], []);
      }
    }
    events := events + [TaskRunning];
    var p := Progress(events, [], map[], map[], map[]);
    ghost var p0 := p;
    assert events == if task.preflight then [TaskPreflight, TaskRunning] else [TaskRunning];
    assert Transcribe(task, ev, nodes, topo) == Walk(task, ev, nodes, topo, 0, p0);
    for i := 0 to |topo|
      invariant Walk(task, ev, nodes, topo, 0, p0) == Walk(task, ev, nodes, topo, i, p)
    {
      var visit := VisitNode(task, ev, nodes, topo, p, topo[i]);
      if visit.Stop? {
        return visit.t;
      }
      p := visit.p;
    }
    var aggregate := AggregateResults(task.strategy, nodes, topo, p);
    return Conclude(p, TaskCompleted, TerminalCompleted, None, aggregate, []);
  }

  method VisitNode(task: Options, ev: Evaluator, nodes: map<Id, TaskNode>, topo: seq<Id>, p0: Progress, id: Id)
      returns (visit: Visit)
    requires id in nodes && forall x :: x in topo ==> x in nodes
    requires KnownDependencies(nodes)
    ensures visit == Visited(task, ev, nodes, topo, p0, id)
  {
    var p := p0;
    var node := nodes[id];
    if task.cancelBefore == Some(id) {
      return Stop(Conclude(p, TaskCancelled, TerminalCancelled, Some(TASK_CANCELLED), Null, []));
    }
    if node.condition.Some? {
      var verdict := ev.condition(node.condition.value, p.results);
      if verdict.None? {
        return Stop(FailBefore(p, id, CONDITION_EVAL_ERROR));
      }
      if !verdict.value {
        return Next(p.(states := p.states[id := Skipped], attempts := p.attempts[id := 0],
                       events := p.events + [NodeEntered(id, Skipped)]));
      }
    }
    if node.mapping.Some? {
      var params := ResolveMapping(ev, node.mapping.value, p.results);
      if params.None? {
        return Stop(FailBefore(p, id, INPUT_MAPPING_ERROR));
      }
      p := p.(mapped := p.mapped[id := Obj(params.value)]);
    }
    var run := RunAttempts(node, OrElse(node.maxRetries, OrElse(task.maxRetries, 0)));
    p := AfterAttempts(p, id, run);
    if run.end.Succeeded? {
      return Next(p);
    }
    var undo := Compensate(task.policy, nodes, topo, p.states, id);
    var error := if undo.error.Some? then undo.error.value
                 else if run.end.GaveUp? then run.end.error else DELEGATE_REJECTED;
    return Stop(Conclude(p.(events := p.events + undo.events, states := undo.states),
                         TaskFailed, TerminalFailed, Some(error), Null, undo.order));
  }

  method ResolveMapping(ev: Evaluator, mapping: seq<(Text, Text)>, results: Results)
      returns (params: Option<map<Text, Json>>)
    ensures params == MapParams(ev, mapping, results)
  {
    var fields := map[];
    for i := 0 to |mapping|
      invariant MapParams(ev, mapping[..i], results) == Some(fields)
    {
      assert mapping[..i + 1][..i] == mapping[..i];
      var value := ev.resolve(mapping[i].1, results);
      if value.None? {
        MapParamsStops(ev, mapping, results, i + 1);
        return None;
      }
      fields := fields[mapping[i].0 := value.value];
    }
    assert mapping[..|mapping|] == mapping;
    return Some(fields);
  }

  lemma {:induction false} MapParamsStops(ev: Evaluator, mapping: seq<(Text, Text)>, results: Results, i: nat)
    requires i <= |mapping| && MapParams(ev, mapping[..i], results).None?
    ensures MapParams(ev, mapping, results).None?
    decreases |mapping| - i
  {
    if i == |mapping| {
      assert mapping[..i] == mapping;
    } else {
      assert mapping[..i + 1][..i] == mapping[..i];
      MapParamsStops(ev, mapping, results, i + 1);
    }
  }

  // ---- theorems about the transcript ----

  /** The whole transcript is unchanged by permuting the input node list. */
  lemma PermutationInvariant(task: Task, nodes': seq<TaskNode>, ev: Evaluator, t: Transcript, t': Transcript)
    requires multiset(task.nodes) == multiset(nodes')
    requires Produces(task, ev, t) && Produces(task.(nodes := nodes'), ev, t')
    ensures t == t'
  {
    var views, views' := Views(task.nodes), Views(nodes');
    var edges, edges' := DependencyEdges(views), DependencyEdges(views');
    PermutedNames(task.nodes, nodes');
    PermutedEdges(task.nodes, nodes');
    CyclicSameEdges(edges, edges');
    if Distinct(Names(views)) && DependenciesKnown(views) && !Cyclic(edges) {
      PermutedNodeMap(task.nodes, nodes');
      var topo :| IsLeastTopological(Members(Names(views)), edges, topo)
        && (forall x :: x in topo ==> x in NodeMap(task.nodes))
        && t == Transcribe(task.options, ev, NodeMap(task.nodes), topo);
      var topo' :| IsLeastTopological(Members(Names(views')), edges', topo')
        && (forall x :: x in topo' ==> x in NodeMap(nodes'))
        && t' == Transcribe(task.options, ev, NodeMap(nodes'), topo');
      LeastIsUnique(Members(Names(views)), edges, edges', topo, topo');
    }
  }

  lemma CyclicSameEdges(edges: seq<Edge>, edges': seq<Edge>)
    requires forall e :: e in edges <==> e in edges'
    ensures Cyclic(edges) <==> Cyclic(edges')
  {
    forall p ensures IsCycle(edges, p) <==> IsCycle(edges', p) {
    }
    if Cyclic(edges) {
      var p :| IsCycle(edges, p);
      assert IsCycle(edges', p);
    }
    if Cyclic(edges') {
      var p :| IsCycle(edges', p);
      assert IsCycle(edges, p);
    }
  }

  lemma SameNodes(nodes: seq<TaskNode>, nodes': seq<TaskNode>)
    requires multiset(nodes) == multiset(nodes')
    ensures forall n :: n in nodes <==> n in nodes'
  {
    forall n ensures n in nodes <==> n in nodes' {
      assert n in multiset(nodes) <==> n in multiset(nodes');
    }
  }

  lemma PermutedNames(nodes: seq<TaskNode>, nodes': seq<TaskNode>)
    requires multiset(nodes) == multiset(nodes')
    ensures multiset(NodeNames(nodes)) == multiset(NodeNames(nodes'))
    ensures Members(NodeNames(nodes)) == Members(NodeNames(nodes'))
    ensures Distinct(NodeNames(nodes)) <==> Distinct(NodeNames(nodes'))
    ensures DependenciesKnown(Views(nodes)) <==> DependenciesKnown(Views(nodes'))
  {
    NamesPermute(nodes, nodes');
    SameElements(NodeNames(nodes), NodeNames(nodes'));
    SameElements(NodeNames(nodes'), NodeNames(nodes));
    SameNodes(nodes, nodes');
    KnownByNodes(nodes);
    KnownByNodes(nodes');
  }

  lemma KnownByNodes(nodes: seq<TaskNode>)
    ensures DependenciesKnown(Views(nodes)) <==> KnownIn(nodes)
  {
    if KnownIn(nodes) {
      forall v, d | v in Views(nodes) && d in v.dependsOn ensures d in Members(Names(Views(nodes))) {
        var k :| 0 <= k < |nodes| && Views(nodes)[k] == v;
        var n := nodes[k];
        assert n in nodes && v == Dependent(n.id, n.dependsOn);
        assert d in n.dependsOn;
        assert d in Members(NodeNames(nodes));
      }
    }
    if DependenciesKnown(Views(nodes)) {
      forall n, d | n in nodes && d in n.dependsOn ensures d in Members(NodeNames(nodes)) {
        var k :| 0 <= k < |nodes| && nodes[k] == n;
        assert Views(nodes)[k] in Views(nodes) && d in Views(nodes)[k].dependsOn;
      }
    }
  }

  ghost predicate KnownIn(nodes: seq<TaskNode>) {
    forall n, d :: n in nodes && d in n.dependsOn ==> d in Members(NodeNames(nodes))
  }

  lemma CancelOne<T>(a: multiset<T>, b: multiset<T>, x: T)
    requires multiset{x} + a == multiset{x} + b
    ensures a == b
  {
    forall y ensures a[y] == b[y] {
      assert (multiset{x} + a)[y] == (multiset{x} + b)[y];
    }
  }

  /** Taking names commutes with permuting. */
  lemma {:induction false} NamesPermute(nodes: seq<TaskNode>, nodes': seq<TaskNode>)
    requires multiset(nodes) == multiset(nodes')
    ensures multiset(NodeNames(nodes)) == multiset(NodeNames(nodes'))
    decreases |nodes|
  {
    if nodes == [] {
      assert multiset(nodes') == multiset{};
      assert nodes' == [];
    } else {
      var n := nodes[0];
      assert nodes == [n] + nodes[1..];
      assert n in multiset(nodes');
      var k :| 0 <= k < |nodes'| && nodes'[k] == n;
      var rest := nodes'[..k] + nodes'[k + 1..];
      TakeOut(nodes', k);
      CancelOne(multiset(nodes[1..]), multiset(rest), n);
      NamesPermute(nodes[1..], rest);
      TakeOutName(nodes, 0);
      assert nodes[..0] + nodes[1..] == nodes[1..];
      TakeOutName(nodes', k);
    }
  }

  lemma TakeOut<T>(s: seq<T>, k: nat)
    requires k < |s|
    ensures multiset(s) == multiset{s[k]} + multiset(s[..k] + s[k + 1..])
  {
    assert s == s[..k] + [s[k]] + s[k + 1..];
  }

  lemma TakeOutName(nodes: seq<TaskNode>, k: nat)
    requires k < |nodes|
    ensures multiset(NodeNames(nodes)) == multiset{nodes[k].id} + multiset(NodeNames(nodes[..k] + nodes[k + 1..]))
  {
    var names := NodeNames(nodes);
    TakeOut(names, k);
    assert NodeNames(nodes[..k] + nodes[k + 1..]) == names[..k] + names[k + 1..];
  }

  lemma PermutedEdges(nodes: seq<TaskNode>, nodes': seq<TaskNode>)
    requires multiset(nodes) == multiset(nodes')
    ensures forall e :: e in DependencyEdges(Views(nodes)) <==> e in DependencyEdges(Views(nodes'))
  {
    SameNodes(nodes, nodes');
    forall e: Edge ensures e in DependencyEdges(Views(nodes)) <==> e in DependencyEdges(Views(nodes')) {
      EdgesByNodes(nodes, e);
      EdgesByNodes(nodes', e);
    }
  }

  lemma EdgesByNodes(nodes: seq<TaskNode>, e: Edge)
    ensures e in DependencyEdges(Views(nodes)) <==> exists n :: n in nodes && n.id == e.to && e.from in n.dependsOn
  {
    EdgesAreDependencies(Views(nodes), e.from, e.to);
    assert e == Edge(e.from, e.to);
    if n :| n in nodes && n.id == e.to && e.from in n.dependsOn {
      var k :| 0 <= k < |nodes| && nodes[k] == n;
      assert Views(nodes)[k] == Dependent(n.id, n.dependsOn);
    }
    if DependsOn(Views(nodes), e.from, e.to) {
      var d :| d in Views(nodes) && d.id == e.to && e.from in d.dependsOn;
      var k :| 0 <= k < |nodes| && Views(nodes)[k] == d;
      assert nodes[k] in nodes;
    }
  }

  lemma OneOfEachName(nodes: seq<TaskNode>, m: TaskNode, n: TaskNode)
    requires Distinct(NodeNames(nodes)) && m in nodes && n in nodes && m.id == n.id
    ensures m == n
  {
    var i :| 0 <= i < |nodes| && nodes[i] == m;
    var j :| 0 <= j < |nodes| && nodes[j] == n;
    assert NodeNames(nodes)[i] == NodeNames(nodes)[j];
  }

  lemma PermutedNodeMap(nodes: seq<TaskNode>, nodes': seq<TaskNode>)
    requires multiset(nodes) == multiset(nodes') && Distinct(NodeNames(nodes))
    ensures NodeMap(nodes) == NodeMap(nodes')
  {
    NodeMapContents(nodes);
    NodeMapContents(nodes');
    PermutedNames(nodes, nodes');
    SameNodes(nodes, nodes');
    forall id | id in NodeMap(nodes) ensures NodeMap(nodes)[id] == NodeMap(nodes')[id] {
      OneOfEachName(nodes, NodeMap(nodes)[id], NodeMap(nodes')[id]);
    }
  }
}
