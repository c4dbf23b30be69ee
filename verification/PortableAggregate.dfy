/** What a completed transcript aggregates: the results of its completed sinks, and how a merge
    combines them. */
module PortableAggregate {
  import opened Common
  import opened Ids
  import opened Graph
  import opened TaskModels
  import opened Json
  import opened StableOrder
  import opened PortableModel
  import opened PortableAttempts
  import opened PortableProfile
  import opened PortableTranscript

  // ---- the values ----

  ghost predicate CompletedSink(nodes: map<Id, TaskNode>, states: map<Id, NodeState>, id: Id) {
    id in nodes && id in states && states[id] == Completed && !HasDependents(nodes, id)
  }

  /** `j` is what the last counted attempt of the node returned. */
  predicate Delivers(nodes: map<Id, TaskNode>, attempts: map<Id, nat>, id: Id, j: Json) {
    && id in nodes && id in attempts && 0 < attempts[id] <= |nodes[id].attempts|
    && var last := nodes[id].attempts[attempts[id] - 1];
    last.Success? && j == ResultOrEmpty(last.result)
  }

  /** `sinks` are the completed sinks, each once, in the order `topo` visits them. */
  ghost predicate SinksInOrder(nodes: map<Id, TaskNode>, states: map<Id, NodeState>, topo: seq<Id>, sinks: seq<Id>) {
    && Distinct(sinks) && (forall id :: id in sinks <==> CompletedSink(nodes, states, id))
    && (forall a, b :: 0 <= a < b < |sinks| ==>
          exists i, j :: 0 <= i < j < |topo| && topo[i] == sinks[a] && topo[j] == sinks[b])
  }

  /** Every completed node has its result on record. */
  ghost predicate Recorded(nodes: map<Id, TaskNode>, p: Progress) {
    forall id :: id in p.states && p.states[id] == Completed ==> RecordedOne(nodes, p, id)
  }

  ghost predicate RecordedOne(nodes: map<Id, TaskNode>, p: Progress, id: Id) {
    Lookup(p.results, id).Some? && Delivers(nodes, p.attempts, id, Lookup(p.results, id).value)
  }

  lemma {:induction false} LastAttemptDelivers(node: TaskNode, maxRetries: int, index: nat)
    requires AttemptsFrom(node, maxRetries, index).end.Succeeded?
    ensures var run := AttemptsFrom(node, maxRetries, index);
            && 0 < run.count <= |node.attempts| && node.attempts[run.count - 1].Success?
            && run.end.result == ResultOrEmpty(node.attempts[run.count - 1].result)
    decreases |node.attempts| - index
  {
    if !node.attempts[index].Success? {
      LastAttemptDelivers(node, maxRetries, index + 1);
    }
  }

  /** What one more visited node adds to the progress. */
  ghost predicate Adds(nodes: map<Id, TaskNode>, p: Progress, id: Id, p': Progress) {
    && p'.states.Keys == p.states.Keys + {id} && p'.attempts.Keys == p.attempts.Keys + {id}
    && (forall x :: x in p.states && x != id ==> p'.states[x] == p.states[x])
    && (forall x :: x in p.attempts && x != id ==> p'.attempts[x] == p.attempts[x])
    && (p'.results == p.results ||
        exists r: Json :: p'.results == p.results + [(id, r)] && Delivers(nodes, p'.attempts, id, r))
    && (p'.states[id] == Completed ==> p'.results != p.results)
  }

  lemma NextAdds(task: Options, ev: Evaluator, nodes: map<Id, TaskNode>, topo: seq<Id>, p: Progress, id: Id)
    requires id in nodes && forall x :: x in topo ==> x in nodes
    requires Visited(task, ev, nodes, topo, p, id).Next?
    ensures Adds(nodes, p, id, Visited(task, ev, nodes, topo, p, id).p)
  {
    var node := nodes[id];
    var limit := OrElse(node.maxRetries, OrElse(task.maxRetries, 0));
    var run := AttemptsFrom(node, limit, 0);
    if run.end.Succeeded? {
      LastAttemptDelivers(node, limit, 0);
    }
  }

  lemma AddsRecorded(nodes: map<Id, TaskNode>, p: Progress, id: Id, p': Progress)
    requires Recorded(nodes, p) && id !in p.states && Adds(nodes, p, id, p')
    ensures Recorded(nodes, p')
  {
    forall x | x in p'.states && p'.states[x] == Completed ensures RecordedOne(nodes, p', x) {
      if x != id {
        StaysRecorded(nodes, p, id, p', x);
      }
    }
  }

  lemma StaysRecorded(nodes: map<Id, TaskNode>, p: Progress, id: Id, p': Progress, x: Id)
    requires RecordedOne(nodes, p, x) && Adds(nodes, p, id, p') && x != id
    ensures RecordedOne(nodes, p', x)
  {
  }

  /** A walk that completes ends in a progress that has every completed result on record. */
  lemma {:induction false} WalkRecorded(task: Options, ev: Evaluator, nodes: map<Id, TaskNode>, topo: seq<Id>, i: nat,
                                        p: Progress) returns (last: Progress)
    requires i <= |topo| && Distinct(topo) && forall x :: x in topo ==> x in nodes
    requires Settled(p, topo[..i]) && Recorded(nodes, p)
    requires Walk(task, ev, nodes, topo, i, p).terminal.TerminalCompleted?
    ensures Recorded(nodes, last)
    ensures Walk(task, ev, nodes, topo, i, p)
         == Conclude(last, TaskCompleted, TerminalCompleted, None,
                     Combine(task.strategy, EndValues(nodes, topo, last)), [])
    decreases |topo| - i
  {
    if i == |topo| {
      return p;
    }
    VisitAccounted(task, ev, nodes, topo, p, topo[..i], topo[i]);
    var visit := Visited(task, ev, nodes, topo, p, topo[i]);
    assert topo[..i + 1] == topo[..i] + [topo[i]];
    assert topo[i] !in topo[..i];
    NextAdds(task, ev, nodes, topo, p, topo[i]);
    AddsRecorded(nodes, p, topo[i], visit.p);
    last := WalkRecorded(task, ev, nodes, topo, i + 1, visit.p);
  }

  ghost function Sinks(nodes: map<Id, TaskNode>, states: map<Id, NodeState>, topo: seq<Id>): seq<Id> {
    Filter(topo, id => CompletedSink(nodes, states, id))
  }

  lemma {:induction false} EndValuesOfSinks(nodes: map<Id, TaskNode>, topo: seq<Id>, p: Progress)
    requires Recorded(nodes, p) && forall x :: x in topo ==> x in nodes
    ensures var sinks, values := Sinks(nodes, p.states, topo), EndValues(nodes, topo, p);
            && |values| == |sinks|
            && forall i :: 0 <= i < |sinks| ==> Delivers(nodes, p.attempts, sinks[i], values[i])
  {
    if topo != [] {
      var n := |topo| - 1;
      EndValuesOfSinks(nodes, topo[..n], p);
      assert topo[n] in nodes;
      assert CompletedSink(nodes, p.states, topo[n]) ==> RecordedOne(nodes, p, topo[n]);
    }
  }

  lemma SinksAreInOrder(nodes: map<Id, TaskNode>, states: map<Id, NodeState>, topo: seq<Id>)
    requires Distinct(topo) && Members(topo) == nodes.Keys
    ensures SinksInOrder(nodes, states, topo, Sinks(nodes, states, topo))
  {
    var keep := id => CompletedSink(nodes, states, id);
    var sinks := Sinks(nodes, states, topo);
    assert sinks == Filter(topo, keep);
    FilterDistinct(topo, keep);
    forall id ensures id in sinks <==> CompletedSink(nodes, states, id) {
      assert id in nodes <==> id in topo;
    }
    forall a, b | 0 <= a < b < |sinks|
      ensures exists i, j :: 0 <= i < j < |topo| && topo[i] == sinks[a] && topo[j] == sinks[b]
    {
      var i, j := FilterOrder(topo, keep, a, b);
    }
  }

  /** A completed transcript combines exactly the results of its completed sinks, in the one
      order the nodes are visited in; each result is that of the node's last attempt. */
  lemma AggregatesSinks(task: Task, ev: Evaluator, t: Transcript)
      returns (topo: seq<Id>, sinks: seq<Id>, values: seq<Json>)
    requires Produces(task, ev, t) && t.terminal.TerminalCompleted?
    ensures IsLeastTopological(Members(NodeNames(task.nodes)), DependencyEdges(Views(task.nodes)), topo)
    ensures SinksInOrder(NodeMap(task.nodes), t.states, topo, sinks) && |values| == |sinks|
    ensures forall i :: 0 <= i < |sinks| ==> Delivers(NodeMap(task.nodes), t.attempts, sinks[i], values[i])
    ensures t.aggregate == Combine(task.options.strategy, values)
  {
    var nodes := NodeMap(task.nodes);
    topo :| IsLeastTopological(Members(NodeNames(task.nodes)), DependencyEdges(Views(task.nodes)), topo)
      && (forall x :: x in topo ==> x in nodes) && t == Transcribe(task.options, ev, nodes, topo);
    GraphOfNodes(task, topo);
    var first := if task.options.preflight then [TaskPreflight, TaskRunning] else [TaskRunning];
    var p := Progress(first, [], map[], map[], map[]);
    assert Settled(p, topo[..0]);
    var last := WalkRecorded(task.options, ev, nodes, topo, 0, p);
    sinks, values := Sinks(nodes, t.states, topo), EndValues(nodes, topo, last);
    EndValuesOfSinks(nodes, topo, last);
    SinksAreInOrder(nodes, t.states, topo);
  }

  // ---- what a merge holds ----

  /** What the values say of a key, in their order; values that are no objects say nothing. */
  function Contributions(values: seq<Json>, k: Text): (r: seq<Json>)
    ensures r != [] <==> Said(values, k)
    ensures forall x :: x in r ==> exists v :: v in values && v.Obj? && k in v.fields && v.fields[k] == x
  {
    if values == [] then []
    else
      var v := values[|values| - 1];
      assert values == values[..|values| - 1] + [v];
      Contributions(values[..|values| - 1], k) + (if v.Obj? && k in v.fields then [v.fields[k]] else [])
  }

  predicate AllArrays(s: seq<Json>) {
    forall x :: x in s ==> x.Arr?
  }

  function Flattened(s: seq<Json>): seq<Json>
    requires AllArrays(s)
  {
    if s == [] then [] else Flattened(s[..|s| - 1]) + s[|s| - 1].items
  }

  /** The arrays that end a list: from position `j` on, and nothing longer. */
  predicate ArraysFrom(s: seq<Json>, j: nat) {
    j <= |s| && AllArrays(s[j..]) && (j > 0 ==> !s[j - 1].Arr?)
  }

  /** The last word on a key, except that `merge_all` joins the arrays the contributions end in. */
  ghost predicate Resolves(strategy: Strategy, said: seq<Json>, j: nat, value: Json) {
    && said != [] && ArraysFrom(said, j)
    && value == if strategy == MergeAll && j < |said| then Arr(Flattened(said[j..])) else said[|said| - 1]
  }

  lemma FlattenedPush(s: seq<Json>, x: Json)
    requires AllArrays(s) && x.Arr?
    ensures AllArrays(s + [x]) && Flattened(s + [x]) == Flattened(s) + x.items
  {
    assert (s + [x])[..|s|] == s;
  }

  lemma ResolvesNext(strategy: Strategy, said: seq<Json>, j: nat, value: Json, x: Json) returns (j': nat)
    requires Resolves(strategy, said, j, value)
    ensures Resolves(strategy, said + [x], j',
                     if strategy == MergeAll && value.Arr? && x.Arr? then Arr(value.items + x.items) else x)
  {
    if x.Arr? {
      j' := j;
      FlattenedPush(said[j..], x);
      assert (said + [x])[j..] == said[j..] + [x];
      if j == |said| {
        assert said[j..] == [];
      }
    } else {
      j' := |said| + 1;
    }
  }

  lemma ResolvesFirst(strategy: Strategy, x: Json) returns (j: nat)
    ensures Resolves(strategy, [x], j, x)
  {
    if x.Arr? {
      j := 0;
      FlattenedPush([], x);
      assert [] + [x] == [x] == [x][0..];
    } else {
      j := 1;
    }
  }

  /** Some object among the values has the key. */
  ghost predicate Said(values: seq<Json>, k: Text) {
    exists v :: v in values && v.Obj? && k in v.fields
  }

  /** What the merge holds of a key follows from what was said of it. */
  ghost predicate Follows(strategy: Strategy, said: seq<Json>, value: Json) {
    exists j :: Resolves(strategy, said, j, value)
  }

  /** A merge holds a key if and only if some object among the values does, and what it holds
      is resolved from what those objects say of the key. */
  lemma {:induction false} MergeHolds(strategy: Strategy, values: seq<Json>, k: Text)
    ensures k in MergeAllValues(strategy, values) <==> Said(values, k)
    ensures k in MergeAllValues(strategy, values) ==>
              Follows(strategy, Contributions(values, k), MergeAllValues(strategy, values)[k])
  {
    if values != [] {
      var front, v := values[..|values| - 1], values[|values| - 1];
      MergeHolds(strategy, front, k);
      MergePush(strategy, front, v, k);
      assert values == front + [v];
    }
  }

  /** One more value keeps the merge in step with what was said. */
  lemma MergePush(strategy: Strategy, values: seq<Json>, v: Json, k: Text)
    requires var output := MergeAllValues(strategy, values);
             && (k in output <==> Contributions(values, k) != [])
             && (k in output ==> Follows(strategy, Contributions(values, k), output[k]))
    ensures var output, said := MergeAllValues(strategy, values + [v]), Contributions(values + [v], k);
            && (k in output <==> said != [])
            && (k in output ==> Follows(strategy, said, output[k]))
  {
    assert (values + [v])[..|values|] == values;
    if v.Obj? && k in v.fields {
      MergeSays(strategy, MergeAllValues(strategy, values), v.fields, Contributions(values, k), k);
    } else {
      assert Contributions(values + [v], k) == Contributions(values, k);
    }
  }

  lemma MergeSays(strategy: Strategy, output: map<Text, Json>, fields: map<Text, Json>, before: seq<Json>, k: Text)
    requires k in fields && (k in output <==> before != [])
    requires k in output ==> Follows(strategy, before, output[k])
    ensures k in MergeFields(strategy, output, fields)
    ensures Follows(strategy, before + [fields[k]], MergeFields(strategy, output, fields)[k])
  {
    if k in output {
      var j :| Resolves(strategy, before, j, output[k]);
      var j' := ResolvesNext(strategy, before, j, output[k], fields[k]);
    } else {
      var j := ResolvesFirst(strategy, fields[k]);
      assert before + [fields[k]] == [fields[k]];
    }
  }
}
