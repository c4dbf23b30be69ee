/** Rollback after a failed node: which nodes are undone, and in what order. */
module PortableCompensation {
  import opened Common
  import opened Ids
  import opened TaskModels
  import opened PortableModel

  datatype CompensationRun = CompensationRun(
    order: seq<Id>,
    events: seq<Event>,
    states: map<Id, NodeState>,
    error: Option<string>)

  /** `u` is needed, directly or not, by `v`. */
  ghost predicate Ancestor(nodes: map<Id, TaskNode>, u: Id, v: Id) {
    exists p :: IsChain(nodes, p) && p[0] == u && p[|p| - 1] == v
  }

  /** Each identifier of the chain is a dependency of the one after it. */
  ghost predicate IsChain(nodes: map<Id, TaskNode>, p: seq<Id>) {
    |p| > 1 && forall i :: 0 <= i < |p| - 1 ==> Needs(nodes, p[i + 1], p[i])
  }

  ghost predicate Undoable(nodes: map<Id, TaskNode>, states: map<Id, NodeState>, failed: Id, u: Id) {
    Ancestor(nodes, u, failed) && u in states && states[u] == Completed
  }

  ghost function Candidates(nodes: map<Id, TaskNode>, topo: seq<Id>, states: map<Id, NodeState>, failed: Id): seq<Id> {
    Reverse(Filter(topo, u => Undoable(nodes, states, failed, u)))
  }

  /** Undo the candidates from position `i` on. */
  function UndoFrom(strict: bool, nodes: map<Id, TaskNode>, candidates: seq<Id>, i: nat,
                    states: map<Id, NodeState>): CompensationRun
    requires i <= |candidates| && forall id :: id in candidates ==> id in nodes
    decreases |candidates| - i
  {
    if i == |candidates| then CompensationRun([], [], states, None)
    else
      var id := candidates[i];
      if !nodes[id].compensable then UndoFrom(strict, nodes, candidates, i + 1, states)
      else
        var outcome := UndoState(nodes[id]);
        var states' := states[id := outcome];
        var events := [NodeCompensating(id), NodeEntered(id, outcome)];
        if outcome == CompensationFailed && strict then
          CompensationRun([id], events, states', Some(COMPENSATION_FAILED))
        else
          var rest := UndoFrom(strict, nodes, candidates, i + 1, states');
          CompensationRun([id] + rest.order, events + rest.events, rest.states, rest.error)
  }

  ghost function Compensation(policy: Policy, nodes: map<Id, TaskNode>, topo: seq<Id>,
                              states: map<Id, NodeState>, failed: Id): CompensationRun
    requires forall id :: id in topo ==> id in nodes
  {
    if policy == NoCompensation then CompensationRun([], [], states, None)
    else
      var candidates := Candidates(nodes, topo, states, failed);
      if policy == Strict && exists id :: id in candidates && !nodes[id].compensable then
        CompensationRun([], [], states, Some(COMPENSATION_NOT_SUPPORTED))
      else UndoFrom(policy == Strict, nodes, candidates, 0, states)
  }

  /** Depth-first collection of everything `id` depends on. The source recurses and mutates
      one shared set; here the set is threaded through. */
  method Collect(nodes: map<Id, TaskNode>, id: Id, seen: set<Id>) returns (ancestors: set<Id>)
    requires KnownDependencies(nodes) && id in nodes && seen <= nodes.Keys
    ensures seen <= ancestors <= nodes.Keys
    ensures forall u :: u in ancestors - seen ==> Ancestor(nodes, u, id)
    ensures forall u :: u in nodes[id].dependsOn ==> u in ancestors
    ensures forall v :: v in ancestors - seen ==> DependenciesIn(nodes, v, ancestors)
    decreases nodes.Keys - seen
  {
    ancestors := seen;
    var deps := nodes[id].dependsOn;
    for i := 0 to |deps|
      invariant seen <= ancestors <= nodes.Keys
      invariant forall u :: u in ancestors - seen ==> Ancestor(nodes, u, id)
      invariant forall u :: u in deps[..i] ==> u in ancestors
      invariant forall v :: v in ancestors - seen ==> DependenciesIn(nodes, v, ancestors)
    {
      var d := deps[i];
      assert d in deps;
      assert Needs(nodes, id, d);
      if d !in ancestors {
        ghost var before := ancestors;
        AncestorEdge(nodes, d, id);
        ancestors := Collect(nodes, d, ancestors + {d});
        forall u | u in ancestors - seen ensures Ancestor(nodes, u, id) {
          if u !in before && u != d {
            AncestorStep(nodes, u, d, id);
          }
        }
        forall v | v in ancestors - seen ensures DependenciesIn(nodes, v, ancestors) {
          if v in before {
            assert DependenciesIn(nodes, v, before);
          }
        }
      }
    }
  }

  ghost predicate DependenciesIn(nodes: map<Id, TaskNode>, v: Id, within: set<Id>)
    requires v in nodes
  {
    forall u :: u in nodes[v].dependsOn ==> u in within
  }

  lemma AncestorEdge(nodes: map<Id, TaskNode>, u: Id, v: Id)
    requires Needs(nodes, v, u)
    ensures Ancestor(nodes, u, v)
  {
    var p := [u, v];
    assert IsChain(nodes, p) && p[0] == u && p[|p| - 1] == v;
  }

  lemma AncestorStep(nodes: map<Id, TaskNode>, u: Id, v: Id, w: Id)
    requires Ancestor(nodes, u, v) && Needs(nodes, w, v)
    ensures Ancestor(nodes, u, w)
  {
    var p :| IsChain(nodes, p) && p[0] == u && p[|p| - 1] == v;
    var q := p + [w];
    forall i | 0 <= i < |q| - 1 ensures Needs(nodes, q[i + 1], q[i]) {
      if i < |p| - 1 {
        assert Needs(nodes, p[i + 1], p[i]);
      }
    }
    assert IsChain(nodes, q) && q[0] == u && q[|q| - 1] == w;
  }

  lemma ChainTail(nodes: map<Id, TaskNode>, p: seq<Id>)
    requires IsChain(nodes, p) && |p| > 2
    ensures IsChain(nodes, p[1..])
  {
    forall i | 0 <= i < |p| - 2 ensures Needs(nodes, p[1..][i + 1], p[1..][i]) {
      assert Needs(nodes, p[i + 2], p[i + 1]);
    }
  }

  /** A set holding the dependencies of `id`, and closed under dependency, holds every ancestor. */
  lemma {:induction false} AncestorsInside(nodes: map<Id, TaskNode>, id: Id, within: set<Id>, p: seq<Id>)
    requires id in nodes && within <= nodes.Keys
    requires DependenciesIn(nodes, id, within)
    requires forall v :: v in within ==> DependenciesIn(nodes, v, within)
    requires IsChain(nodes, p) && p[|p| - 1] == id
    ensures p[0] in within
    decreases |p|
  {
    assert Needs(nodes, p[1], p[0]);
    if |p| > 2 {
      ChainTail(nodes, p);
      AncestorsInside(nodes, id, within, p[1..]);
    }
  }

  method Compensate(policy: Policy, nodes: map<Id, TaskNode>, topo: seq<Id>,
                    states: map<Id, NodeState>, failed: Id) returns (run: CompensationRun)
    requires KnownDependencies(nodes) && failed in nodes
    requires forall id :: id in topo ==> id in nodes
    ensures run == Compensation(policy, nodes, topo, states, failed)
  {
    if policy == NoCompensation {
      return CompensationRun([], [], states, None);
    }
    var ancestors := Collect(nodes, failed, {});
    forall u ensures u in ancestors <==> Ancestor(nodes, u, failed) {
      if Ancestor(nodes, u, failed) {
        var p :| IsChain(nodes, p) && p[0] == u && p[|p| - 1] == failed;
        AncestorsInside(nodes, failed, ancestors, p);
      }
    }
    var kept := Filter(topo, u => u in ancestors && u in states && states[u] == Completed);
    SameFilter(topo, u => u in ancestors && u in states && states[u] == Completed,
               u => Undoable(nodes, states, failed, u));
    var candidates := Reverse(kept);
    if policy == Strict && exists id :: id in candidates && !nodes[id].compensable {
      return CompensationRun([], [], states, Some(COMPENSATION_NOT_SUPPORTED));
    }
    run := Undo(policy == Strict, nodes, candidates, states);
  }

  method Undo(strict: bool, nodes: map<Id, TaskNode>, candidates: seq<Id>, states0: map<Id, NodeState>)
      returns (run: CompensationRun)
    requires forall id :: id in candidates ==> id in nodes
    ensures run == UndoFrom(strict, nodes, candidates, 0, states0)
  {
    var order: seq<Id> := [];
    var events: seq<Event> := [];
    var states := states0;
    for i := 0 to |candidates|
      invariant var rest := UndoFrom(strict, nodes, candidates, i, states);
                UndoFrom(strict, nodes, candidates, 0, states0)
                == CompensationRun(order + rest.order, events + rest.events, rest.states, rest.error)
    {
      var id := candidates[i];
      if !nodes[id].compensable {
        continue;
      }
      ghost var order', events' := order, events;
      order := order + [id];
      events := events + [NodeCompensating(id)];
      if nodes[id].compensationFails {
        states := states[id := CompensationFailed];
        events := events + [NodeEntered(id, CompensationFailed)];
        assert events == events' + [NodeCompensating(id), NodeEntered(id, CompensationFailed)];
        if strict {
          return CompensationRun(order, events, states, Some(COMPENSATION_FAILED));
        }
      } else {
        states := states[id := Compensated];
        events := events + [NodeEntered(id, Compensated)];
        assert events == events' + [NodeCompensating(id), NodeEntered(id, Compensated)];
      }
      ghost var rest := UndoFrom(strict, nodes, candidates, i + 1, states);
      assert order' + ([id] + rest.order) == order + rest.order;
      assert forall pair: seq<Event> :: events' + (pair + rest.events) == events' + pair + rest.events;
    }
    assert order + [] == order && events + [] == events;
    return CompensationRun(order, events, states, None);
  }

  // ---- what rollback touches, and in which order ----

  function UndoState(node: TaskNode): NodeState {
    if node.compensationFails then CompensationFailed else Compensated
  }

  lemma {:induction false} UndoShape(strict: bool, nodes: map<Id, TaskNode>, candidates: seq<Id>, i: nat,
                                     states: map<Id, NodeState>)
    requires i <= |candidates| && forall id :: id in candidates ==> id in nodes
    requires Distinct(candidates)
    ensures var run := UndoFrom(strict, nodes, candidates, i, states);
            && (forall id :: id in run.order ==> id in candidates[i..] && nodes[id].compensable)
            && states.Keys <= run.states.Keys <= states.Keys + Members(candidates)
            && (forall id :: id in run.states && id !in run.order ==> id in states && run.states[id] == states[id])
            && (forall id :: id in run.order ==> id in run.states && run.states[id] == UndoState(nodes[id]))
    decreases |candidates| - i
  {
    if i < |candidates| {
      var id := candidates[i];
      assert candidates[i..] == [id] + candidates[i + 1..];
      assert id !in candidates[i + 1..];
      if !nodes[id].compensable {
        UndoShape(strict, nodes, candidates, i + 1, states);
      } else {
        var outcome := UndoState(nodes[id]);
        UndoShape(strict, nodes, candidates, i + 1, states[id := outcome]);
      }
    }
  }

  /** Undone nodes appear in candidate order. */
  lemma {:induction false} UndoOrder(strict: bool, nodes: map<Id, TaskNode>, candidates: seq<Id>, i: nat,
                                     states: map<Id, NodeState>, a: nat, b: nat)
      returns (a': nat, b': nat)
    requires i <= |candidates| && forall id :: id in candidates ==> id in nodes
    requires Distinct(candidates)
    requires a < b < |UndoFrom(strict, nodes, candidates, i, states).order|
    ensures i <= a' < b' < |candidates|
    ensures candidates[a'] == UndoFrom(strict, nodes, candidates, i, states).order[a]
    ensures candidates[b'] == UndoFrom(strict, nodes, candidates, i, states).order[b]
    decreases |candidates| - i
  {
    var id := candidates[i];
    if !nodes[id].compensable {
      a', b' := UndoOrder(strict, nodes, candidates, i + 1, states, a, b);
    } else {
      var outcome := UndoState(nodes[id]);
      var states' := states[id := outcome];
      var rest := UndoFrom(strict, nodes, candidates, i + 1, states');
      if a == 0 {
        UndoShape(strict, nodes, candidates, i + 1, states');
        a' := i;
        assert rest.order[b - 1] in candidates[i + 1..];
        var k :| 0 <= k < |candidates[i + 1..]| && candidates[i + 1..][k] == rest.order[b - 1];
        b' := i + 1 + k;
      } else {
        a', b' := UndoOrder(strict, nodes, candidates, i + 1, states', a - 1, b - 1);
      }
    }
  }

  /** Rollback undoes only completed ancestors of the failed node that declare an action, and
      leaves every other state alone. */
  lemma CompensationTouches(policy: Policy, nodes: map<Id, TaskNode>, topo: seq<Id>,
                            states: map<Id, NodeState>, failed: Id)
    requires Respects(nodes, topo) && KnownDependencies(nodes)
    requires forall id :: id in topo ==> id in nodes
    ensures var run := Compensation(policy, nodes, topo, states, failed);
            && (forall id :: id in run.order ==> id in nodes && nodes[id].compensable)
            && (forall id :: id in run.order ==> Undoable(nodes, states, failed, id))
            && (forall id :: id in states && id !in run.order ==> id in run.states && run.states[id] == states[id])
            && (forall id :: id in run.order ==> id in run.states && run.states[id] == UndoState(nodes[id]))
            && run.states.Keys == states.Keys
  {
    CandidatesBackward(nodes, topo, states, failed);
    var candidates := Candidates(nodes, topo, states, failed);
    UndoTouches(policy == Strict, nodes, candidates, states);
    var run := Compensation(policy, nodes, topo, states, failed);
    assert (run.order == [] && run.states == states) || run == UndoFrom(policy == Strict, nodes, candidates, 0, states);
  }

  lemma UndoTouches(strict: bool, nodes: map<Id, TaskNode>, candidates: seq<Id>, states: map<Id, NodeState>)
    requires Distinct(candidates) && forall id :: id in candidates ==> id in nodes && id in states
    ensures var run := UndoFrom(strict, nodes, candidates, 0, states);
            && (forall id :: id in run.order ==> id in candidates && nodes[id].compensable)
            && (forall id :: id in states && id !in run.order ==> id in run.states && run.states[id] == states[id])
            && (forall id :: id in run.order ==> id in run.states && run.states[id] == UndoState(nodes[id]))
            && run.states.Keys == states.Keys
  {
    assert candidates[0..] == candidates;
    UndoShape(strict, nodes, candidates, 0, states);
  }

  /** Each node is undone at most once, and never before a node that depends on it,
      directly or through others. */
  lemma CompensationBackward(policy: Policy, nodes: map<Id, TaskNode>, topo: seq<Id>,
                             states: map<Id, NodeState>, failed: Id, a: nat, b: nat)
    requires Respects(nodes, topo) && KnownDependencies(nodes)
    requires forall id :: id in topo ==> id in nodes
    requires a < b < |Compensation(policy, nodes, topo, states, failed).order|
    ensures var order := Compensation(policy, nodes, topo, states, failed).order;
            order[a] != order[b] && !Ancestor(nodes, order[a], order[b])
  {
    var candidates := Candidates(nodes, topo, states, failed);
    CandidatesBackward(nodes, topo, states, failed);
    var a', b' := UndoOrder(policy == Strict, nodes, candidates, 0, states, a, b);
  }

  lemma AncestorEarlier(nodes: map<Id, TaskNode>, topo: seq<Id>, i: nat, j: nat)
    requires Respects(nodes, topo) && KnownDependencies(nodes)
    requires i <= j < |topo|
    ensures !Ancestor(nodes, topo[j], topo[i])
  {
    forall p | IsChain(nodes, p) && p[0] == topo[j] ensures p[|p| - 1] != topo[i] {
      var k := ChainAdvances(nodes, topo, p, j);
    }
  }

  lemma {:induction false} ChainAdvances(nodes: map<Id, TaskNode>, topo: seq<Id>, p: seq<Id>, j: nat) returns (k: nat)
    requires Respects(nodes, topo) && KnownDependencies(nodes)
    requires IsChain(nodes, p) && j < |topo| && p[0] == topo[j]
    ensures j < k < |topo| && topo[k] == p[|p| - 1]
    decreases |p|
  {
    assert Needs(nodes, p[1], p[0]);
    assert p[1] in Members(topo);
    k :| 0 <= k < |topo| && topo[k] == p[1];
    if |p| > 2 {
      ChainTail(nodes, p);
      k := ChainAdvances(nodes, topo, p[1..], k);
    }
  }

  lemma CandidatesBackward(nodes: map<Id, TaskNode>, topo: seq<Id>, states: map<Id, NodeState>, failed: Id)
    requires Respects(nodes, topo) && KnownDependencies(nodes)
    ensures var candidates := Candidates(nodes, topo, states, failed);
            && Distinct(candidates)
            && (forall id :: id in candidates ==> id in topo && Undoable(nodes, states, failed, id))
            && (forall a, b :: 0 <= a < b < |candidates| ==> !Ancestor(nodes, candidates[a], candidates[b]))
  {
    var keep := u => Undoable(nodes, states, failed, u);
    SameFilter(topo, keep, u => Undoable(nodes, states, failed, u));
    var candidates := Reverse(Filter(topo, keep));
    assert candidates == Candidates(nodes, topo, states, failed);
    forall a, b | 0 <= a < b < |candidates|
      ensures candidates[a] != candidates[b] && !Ancestor(nodes, candidates[a], candidates[b])
    {
      ReversePair(nodes, topo, keep, a, b);
    }
  }

  lemma ReversePair(nodes: map<Id, TaskNode>, topo: seq<Id>, keep: Id -> bool, a: nat, b: nat)
    requires Respects(nodes, topo) && KnownDependencies(nodes)
    requires a < b < |Filter(topo, keep)|
    ensures var r := Reverse(Filter(topo, keep)); r[a] != r[b] && !Ancestor(nodes, r[a], r[b])
  {
    var b', a' := FilterReversed(topo, keep, a, b);
    AncestorEarlier(nodes, topo, b', a');
  }

  /** A strict rollback undoes nothing if and only if some completed ancestor lacks an action, or
      there is no completed ancestor; the first is what its error reports. */
  lemma StrictUndoesNothingIff(nodes: map<Id, TaskNode>, topo: seq<Id>, states: map<Id, NodeState>, failed: Id)
    requires forall id :: id in topo ==> id in nodes
    ensures var run := Compensation(Strict, nodes, topo, states, failed);
            && (run.error == Some(COMPENSATION_NOT_SUPPORTED)
                <==> exists u :: u in topo && Undoable(nodes, states, failed, u) && !nodes[u].compensable)
            && (run.error == Some(COMPENSATION_NOT_SUPPORTED) ==> run.order == [] && run.states == states)
            && (run.order == []
                <==> (exists u :: u in topo && Undoable(nodes, states, failed, u) && !nodes[u].compensable)
                     || (forall u :: u in topo ==> !Undoable(nodes, states, failed, u)))
  {
    var candidates := Candidates(nodes, topo, states, failed);
    CandidatesMembers(nodes, topo, states, failed);
    if u :| u in candidates && !nodes[u].compensable {
      assert Undoable(nodes, states, failed, u);
    } else {
      StrictStarts(nodes, candidates, states);
      CodesDiffer();
      assert candidates != [] ==> candidates[0] in candidates;
    }
  }

  lemma CandidatesMembers(nodes: map<Id, TaskNode>, topo: seq<Id>, states: map<Id, NodeState>, failed: Id)
    ensures forall u :: u in Candidates(nodes, topo, states, failed)
              <==> u in topo && Undoable(nodes, states, failed, u)
  {
    var keep := u => Undoable(nodes, states, failed, u);
    SameFilter(topo, keep, u => Undoable(nodes, states, failed, u));
    var candidates := Reverse(Filter(topo, keep));
    assert candidates == Candidates(nodes, topo, states, failed);
  }

  lemma CodesDiffer()
    ensures COMPENSATION_FAILED != COMPENSATION_NOT_SUPPORTED
  {
    assert COMPENSATION_FAILED[17] != COMPENSATION_NOT_SUPPORTED[17];
  }

  /** With every candidate undoable, a strict rollback starts at once and reports at most a failed
      action. */
  lemma {:induction false} StrictStarts(nodes: map<Id, TaskNode>, candidates: seq<Id>, states: map<Id, NodeState>)
    requires forall id :: id in candidates ==> id in nodes && nodes[id].compensable
    ensures var run := UndoFrom(true, nodes, candidates, 0, states);
            (run.order == [] <==> candidates == []) && (run.error.None? || run.error == Some(COMPENSATION_FAILED))
  {
    UndoErrors(nodes, candidates, 0, states);
    if candidates != [] {
      assert candidates[0] in candidates;
    }
  }

  lemma {:induction false} UndoErrors(nodes: map<Id, TaskNode>, candidates: seq<Id>, i: nat, states: map<Id, NodeState>)
    requires i <= |candidates| && forall id :: id in candidates ==> id in nodes
    ensures var run := UndoFrom(true, nodes, candidates, i, states);
            run.error.None? || run.error == Some(COMPENSATION_FAILED)
    decreases |candidates| - i
  {
    if i < |candidates| {
      var id := candidates[i];
      var states' := if nodes[id].compensable then states[id := UndoState(nodes[id])] else states;
      UndoErrors(nodes, candidates, i + 1, states');
    }
  }

  /** A best-effort policy undoes every completed ancestor that declares an action. */
  lemma BestEffortComplete(nodes: map<Id, TaskNode>, topo: seq<Id>,
                           states: map<Id, NodeState>, failed: Id, u: Id)
    requires forall id :: id in topo ==> id in nodes
    requires u in topo && Undoable(nodes, states, failed, u) && nodes[u].compensable
    ensures u in Compensation(BestEffort, nodes, topo, states, failed).order
  {
    var candidates := Candidates(nodes, topo, states, failed);
    assert u in candidates;
    var k :| 0 <= k < |candidates| && candidates[k] == u;
    UndoReaches(nodes, candidates, 0, states, k);
  }

  lemma {:induction false} UndoReaches(nodes: map<Id, TaskNode>, candidates: seq<Id>, i: nat,
                                       states: map<Id, NodeState>, k: nat)
    requires i <= k < |candidates| && forall id :: id in candidates ==> id in nodes
    requires nodes[candidates[k]].compensable
    ensures candidates[k] in UndoFrom(false, nodes, candidates, i, states).order
    decreases |candidates| - i
  {
    if i < k {
      var id := candidates[i];
      if !nodes[id].compensable {
        UndoReaches(nodes, candidates, i + 1, states, k);
      } else {
        var outcome := UndoState(nodes[id]);
        UndoReaches(nodes, candidates, i + 1, states[id := outcome], k);
      }
    }
  }
}
