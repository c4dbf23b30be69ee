/** What every transcript the evaluator can return says about the nodes of its task. */
module PortableTranscript {
  import opened Common
  import opened Ids
  import opened Graph
  import opened StableOrder
  import opened Json
  import opened PortableModel
  import opened PortableAttempts
  import opened PortableCompensation
  import opened PortableProfile

  // ---- along the walk ----

  /** Every visited node has completed or was skipped, with its attempts counted. */
  ghost predicate Settled(p: Progress, visited: seq<Id>) {
    && p.states.Keys == Members(visited) == p.attempts.Keys
    && (forall id :: id in p.states ==> p.states[id] == Completed || p.states[id] == Skipped)
  }

  predicate Undone(s: NodeState) {
    s == Compensated || s == CompensationFailed
  }

  /** The task ran through, or stopped before a node's attempts: nothing is undone. */
  ghost predicate NothingUndone(t: Transcript) {
    && t.compensation == []
    && (forall id :: id in t.states ==> !Undone(t.states[id]))
    && (forall id :: id in t.states && t.states[id] == Failed ==> id in t.attempts && t.attempts[id] == 0)
    && t.attempts.Keys <= t.states.Keys
  }

  /** The attempts of node `f` ran out and the states before it, `s`, were rolled back. */
  ghost predicate RolledBackFor(policy: Policy, nodes: map<Id, TaskNode>, topo: seq<Id>, t: Transcript,
                                s: map<Id, NodeState>, f: Id)
    requires forall id :: id in topo ==> id in nodes
  {
    var run := Compensation(policy, nodes, topo, s, f);
    && f in nodes && t.terminal == TerminalFailed
    && t.compensation == run.order && t.states == run.states
    && (run.error.Some? ==> t.error == run.error)
    && (forall id :: id in s ==> s[id] == Completed || s[id] == Skipped || (id == f && s[id] == Failed))
    && t.attempts.Keys <= s.Keys + {f}
  }

  ghost predicate CompletedFully(topo: seq<Id>, t: Transcript) {
    && t.states.Keys == Members(topo) == t.attempts.Keys
    && (forall id :: id in t.states ==> t.states[id] == Completed || t.states[id] == Skipped)
    && t.compensation == []
  }

  ghost predicate Accounted(policy: Policy, nodes: map<Id, TaskNode>, topo: seq<Id>, t: Transcript)
    requires forall id :: id in topo ==> id in nodes
  {
    && (t.terminal.TerminalCompleted? <==> t.error.None?)
    && (t.terminal.TerminalCompleted? ==> CompletedFully(topo, t))
    && (NothingUndone(t) || exists s, f :: RolledBackFor(policy, nodes, topo, t, s, f))
  }

  lemma {:induction false} WalkAccounted(task: Options, ev: Evaluator, nodes: map<Id, TaskNode>, topo: seq<Id>,
                                         i: nat, p: Progress)
    requires i <= |topo| && forall x :: x in topo ==> x in nodes
    requires Settled(p, topo[..i])
    ensures Accounted(task.policy, nodes, topo, Walk(task, ev, nodes, topo, i, p))
    decreases |topo| - i
  {
    if i == |topo| {
      assert topo[..i] == topo;
    } else {
      VisitAccounted(task, ev, nodes, topo, p, topo[..i], topo[i]);
      var visit := Visited(task, ev, nodes, topo, p, topo[i]);
      if visit.Next? {
        assert topo[..i + 1] == topo[..i] + [topo[i]];
        WalkAccounted(task, ev, nodes, topo, i + 1, visit.p);
      }
    }
  }

  lemma VisitAccounted(task: Options, ev: Evaluator, nodes: map<Id, TaskNode>, topo: seq<Id>, p: Progress,
                       visited: seq<Id>, id: Id)
    requires id in nodes && forall x :: x in topo ==> x in nodes
    requires Settled(p, visited)
    ensures var visit := Visited(task, ev, nodes, topo, p, id);
            && (visit.Next? ==> Settled(visit.p, visited + [id]))
            && (visit.Stop? ==> !visit.t.terminal.TerminalCompleted? && Accounted(task.policy, nodes, topo, visit.t))
  {
    var visit := Visited(task, ev, nodes, topo, p, id);
    if visit.Next? {
      NextSettled(task, ev, nodes, topo, p, visited, id);
    } else {
      StopAccounted(task, ev, nodes, topo, p, visited, id);
    }
  }

  lemma NextSettled(task: Options, ev: Evaluator, nodes: map<Id, TaskNode>, topo: seq<Id>, p: Progress,
                    visited: seq<Id>, id: Id)
    requires id in nodes && (forall x :: x in topo ==> x in nodes) && Settled(p, visited)
    requires Visited(task, ev, nodes, topo, p, id).Next?
    ensures Settled(Visited(task, ev, nodes, topo, p, id).p, visited + [id])
  {
    assert Members(visited + [id]) == Members(visited) + {id};
  }

  lemma StopAccounted(task: Options, ev: Evaluator, nodes: map<Id, TaskNode>, topo: seq<Id>, p: Progress,
                      visited: seq<Id>, id: Id)
    requires id in nodes && (forall x :: x in topo ==> x in nodes) && Settled(p, visited)
    requires Visited(task, ev, nodes, topo, p, id).Stop?
    ensures var t := Visited(task, ev, nodes, topo, p, id).t;
            !t.terminal.TerminalCompleted? && Accounted(task.policy, nodes, topo, t)
  {
    var t := Visited(task, ev, nodes, topo, p, id).t;
    var node := nodes[id];
    var run := AttemptsFrom(node, OrElse(node.maxRetries, OrElse(task.maxRetries, 0)), 0);
    var p2 := AfterAttempts(Mapped(ev, node, id, p), id, run);
    var verdict := if node.condition.Some? then ev.condition(node.condition.value, p.results) else Some(true);
    if task.cancelBefore == Some(id) {
      assert NothingUndone(t);
    } else if verdict.None? {
      FailBeforeUndoesNothing(p, visited, id, CONDITION_EVAL_ERROR);
    } else if node.mapping.Some? && MapParams(ev, node.mapping.value, p.results).None? {
      FailBeforeUndoesNothing(p, visited, id, INPUT_MAPPING_ERROR);
    } else {
      assert t == AfterFailure(task, nodes, topo, p2, id, run.end);
      FailureRollsBack(task, nodes, topo, p2, id, run.end);
    }
  }

  lemma FailBeforeUndoesNothing(p: Progress, visited: seq<Id>, id: Id, error: string)
    requires Settled(p, visited)
    ensures NothingUndone(FailBefore(p, id, error))
  {
  }

  lemma FailureRollsBack(task: Options, nodes: map<Id, TaskNode>, topo: seq<Id>, p: Progress, id: Id, end: AttemptEnd)
    requires id in nodes && forall x :: x in topo ==> x in nodes
    requires forall x :: x in p.states ==>
               p.states[x] == Completed || p.states[x] == Skipped || (x == id && p.states[x] == Failed)
    requires p.attempts.Keys <= p.states.Keys + {id}
    ensures RolledBackFor(task.policy, nodes, topo, AfterFailure(task, nodes, topo, p, id, end), p.states, id)
  {
  }

  /** The progress a node's attempts start from. */
  function Mapped(ev: Evaluator, node: TaskNode, id: Id, p: Progress): Progress {
    if node.mapping.None? then p
    else
      var params := MapParams(ev, node.mapping.value, p.results);
      if params.None? then p else p.(mapped := p.mapped[id := Obj(params.value)])
  }

  // ---- what the evaluator returns ----

  /** Every transcript comes from a walk whose rollback, if any, is over the whole task. */
  lemma ProducedAccounted(task: Task, ev: Evaluator, t: Transcript) returns (topo: seq<Id>)
    requires Produces(task, ev, t)
    ensures forall id :: id in topo ==> id in NodeMap(task.nodes)
    ensures Accounted(task.options.policy, NodeMap(task.nodes), topo, t)
    ensures t.terminal.TerminalCompleted? || !NothingUndone(t) ==>
              Respects(NodeMap(task.nodes), topo) && KnownDependencies(NodeMap(task.nodes))
  {
    var views := Views(task.nodes);
    if !Distinct(Names(views)) || !DependenciesKnown(views) || Cyclic(DependencyEdges(views)) {
      topo := [];
    } else {
      topo :| IsLeastTopological(Members(Names(views)), DependencyEdges(views), topo)
        && (forall x :: x in topo ==> x in NodeMap(task.nodes))
        && t == Transcribe(task.options, ev, NodeMap(task.nodes), topo);
      GraphOfNodes(task, topo);
      TranscribeAccounted(task.options, ev, NodeMap(task.nodes), topo);
    }
  }

  lemma TranscribeAccounted(task: Options, ev: Evaluator, nodes: map<Id, TaskNode>, topo: seq<Id>)
    requires forall x :: x in topo ==> x in nodes
    ensures Accounted(task.policy, nodes, topo, Transcribe(task, ev, nodes, topo))
  {
    var first := if task.preflight then [TaskPreflight, TaskRunning] else [TaskRunning];
    var p := Progress(first, [], map[], map[], map[]);
    assert Settled(p, topo[..0]);
    WalkAccounted(task, ev, nodes, topo, 0, p);
  }

  /** A completed transcript has every node of the task completed or skipped, with its attempts
      counted and nothing undone; a transcript is completed exactly when it carries no error. */
  lemma CompletedVisitsAll(task: Task, ev: Evaluator, t: Transcript)
    requires Produces(task, ev, t)
    ensures t.terminal.TerminalCompleted? <==> t.error.None?
    ensures t.terminal.TerminalCompleted? ==>
              && t.states.Keys == Members(NodeNames(task.nodes)) == t.attempts.Keys
              && (forall id :: id in t.states ==> t.states[id] == Completed || t.states[id] == Skipped)
              && t.compensation == []
  {
    var topo := ProducedAccounted(task, ev, t);
    NodeMapContents(task.nodes);
  }

  /** Whatever a transcript undoes are nodes with an action, each undone once and marked so, none
      before a node that depends on it, and all of them ancestors of one failed node; no other
      node is marked undone. */
  ghost predicate RollbackSound(nodes: map<Id, TaskNode>, t: Transcript) {
    var order := t.compensation;
    && (forall a, b :: 0 <= a < b < |order| ==> order[a] != order[b] && !Ancestor(nodes, order[a], order[b]))
    && (forall id :: id in order ==> id in nodes && nodes[id].compensable)
    && (forall id :: id in order ==> id in t.states && t.states[id] == UndoState(nodes[id]))
    && (forall id :: id in t.states && Undone(t.states[id]) ==> id in order)
    && (order != [] ==> t.terminal == TerminalFailed && exists f :: UndoneFor(nodes, order, f))
  }

  ghost predicate UndoneFor(nodes: map<Id, TaskNode>, order: seq<Id>, f: Id) {
    f in nodes && forall id :: id in order ==> Ancestor(nodes, id, f)
  }

  lemma TranscriptRollsBack(task: Task, ev: Evaluator, t: Transcript)
    requires Produces(task, ev, t)
    ensures RollbackSound(NodeMap(task.nodes), t)
  {
    var topo := ProducedAccounted(task, ev, t);
    var nodes := NodeMap(task.nodes);
    if !NothingUndone(t) {
      var s, f :| RolledBackFor(task.options.policy, nodes, topo, t, s, f);
      RolledBackSound(task.options.policy, nodes, topo, t, s, f);
    }
  }

  lemma RolledBackSound(policy: Policy, nodes: map<Id, TaskNode>, topo: seq<Id>, t: Transcript,
                        s: map<Id, NodeState>, f: Id)
    requires Respects(nodes, topo) && KnownDependencies(nodes) && forall id :: id in topo ==> id in nodes
    requires RolledBackFor(policy, nodes, topo, t, s, f)
    ensures RollbackSound(nodes, t)
  {
    var order := t.compensation;
    RolledBackMarks(policy, nodes, topo, t, s, f);
    forall a, b | 0 <= a < b < |order| ensures order[a] != order[b] && !Ancestor(nodes, order[a], order[b]) {
      CompensationBackward(policy, nodes, topo, s, f, a, b);
    }
    assert UndoneFor(nodes, order, f);
  }

  lemma RolledBackMarks(policy: Policy, nodes: map<Id, TaskNode>, topo: seq<Id>, t: Transcript,
                        s: map<Id, NodeState>, f: Id)
    requires Respects(nodes, topo) && KnownDependencies(nodes) && forall id :: id in topo ==> id in nodes
    requires RolledBackFor(policy, nodes, topo, t, s, f)
    ensures forall id :: id in t.compensation ==>
              && id in nodes && nodes[id].compensable && Ancestor(nodes, id, f)
              && id in t.states && t.states[id] == UndoState(nodes[id])
    ensures forall id :: id in t.states && Undone(t.states[id]) ==> id in t.compensation
  {
    CompensationTouches(policy, nodes, topo, s, f);
  }

  /** The attempts of this node ran out: it failed after an attempt, or there was none to make, in
      which case it has no state at all. */
  ghost predicate RanOut(t: Transcript, f: Id) {
    f in t.attempts && if f in t.states then t.states[f] == Failed && t.attempts[f] > 0 else true
  }

  /** The states a rollback started from, for the node whose attempts ran out. */
  lemma RanOutFor(task: Task, ev: Evaluator, t: Transcript, f: Id) returns (topo: seq<Id>, s: map<Id, NodeState>)
    requires Produces(task, ev, t) && RanOut(t, f)
    ensures forall id :: id in topo ==> id in NodeMap(task.nodes)
    ensures Respects(NodeMap(task.nodes), topo) && KnownDependencies(NodeMap(task.nodes))
    ensures RolledBackFor(task.options.policy, NodeMap(task.nodes), topo, t, s, f)
  {
    topo := ProducedAccounted(task, ev, t);
    var f';
    s, f' :| RolledBackFor(task.options.policy, NodeMap(task.nodes), topo, t, s, f');
    OneRanOut(task.options.policy, NodeMap(task.nodes), topo, t, s, f', f);
  }

  /** A rollback is for the one node whose attempts ran out. */
  lemma OneRanOut(policy: Policy, nodes: map<Id, TaskNode>, topo: seq<Id>, t: Transcript, s: map<Id, NodeState>, f: Id,
                  f': Id)
    requires Respects(nodes, topo) && KnownDependencies(nodes) && forall id :: id in topo ==> id in nodes
    requires RolledBackFor(policy, nodes, topo, t, s, f) && RanOut(t, f')
    ensures f == f'
  {
    CompensationTouches(policy, nodes, topo, s, f);
    assert f' !in t.compensation;
  }

  /** Under best effort no completed ancestor with an action is left standing. */
  lemma BestEffortUndoesAll(task: Task, ev: Evaluator, t: Transcript, f: Id, u: Id)
    requires Produces(task, ev, t) && RanOut(t, f) && task.options.policy == BestEffort
    requires Undoable(NodeMap(task.nodes), t.states, f, u)
    ensures u in NodeMap(task.nodes) && !NodeMap(task.nodes)[u].compensable
  {
    var topo, s := RanOutFor(task, ev, t, f);
    var nodes := NodeMap(task.nodes);
    CompensationTouches(BestEffort, nodes, topo, s, f);
    AncestorInTask(nodes, u, f);
    assert u in Members(topo);
    if nodes[u].compensable {
      BestEffortComplete(nodes, topo, s, f, u);
    }
  }

  lemma AncestorInTask(nodes: map<Id, TaskNode>, u: Id, v: Id)
    requires KnownDependencies(nodes) && Ancestor(nodes, u, v)
    ensures u in nodes
  {
    var p :| IsChain(nodes, p) && p[0] == u && p[|p| - 1] == v;
    assert Needs(nodes, p[1], p[0]);
  }

  /** Under a strict policy nothing is undone if and only if some completed ancestor lacks an
      action or no ancestor had completed. */
  lemma StrictAllOrNothing(task: Task, ev: Evaluator, t: Transcript, f: Id)
    requires Produces(task, ev, t) && RanOut(t, f) && task.options.policy == Strict
    ensures t.compensation == [] <==>
              || (exists u :: Undoable(NodeMap(task.nodes), t.states, f, u)
                              && u in NodeMap(task.nodes) && !NodeMap(task.nodes)[u].compensable)
              || (forall u :: Ancestor(NodeMap(task.nodes), u, f) && u in t.states ==>
                    t.states[u] != Completed && !Undone(t.states[u]))
  {
    var topo, s := RanOutFor(task, ev, t, f);
    var nodes := NodeMap(task.nodes);
    if t.compensation == [] {
      StrictNothing(nodes, topo, t, s, f);
    } else {
      StrictSomething(nodes, topo, t, s, f);
      RolledBackMarks(Strict, nodes, topo, t, s, f);
      var first := t.compensation[0];
      assert Ancestor(nodes, first, f) && Undone(t.states[first]);
    }
  }

  /** Nothing undone: the states are those the rollback started from. */
  lemma StrictNothing(nodes: map<Id, TaskNode>, topo: seq<Id>, t: Transcript, s: map<Id, NodeState>, f: Id)
    requires Respects(nodes, topo) && KnownDependencies(nodes) && forall id :: id in topo ==> id in nodes
    requires RolledBackFor(Strict, nodes, topo, t, s, f) && t.compensation == []
    ensures || (exists u :: Undoable(nodes, t.states, f, u) && u in nodes && !nodes[u].compensable)
            || (forall u :: Ancestor(nodes, u, f) && u in t.states ==> t.states[u] != Completed && !Undone(t.states[u]))
  {
    CompensationTouches(Strict, nodes, topo, s, f);
    StrictUndoesNothingIff(nodes, topo, s, f);
    assert t.states == s;
    if u :| Ancestor(nodes, u, f) && u in s && s[u] == Completed {
      AncestorInTask(nodes, u, f);
      assert u in Members(topo);
    }
  }

  /** Something undone: every completed ancestor had an action. */
  lemma StrictSomething(nodes: map<Id, TaskNode>, topo: seq<Id>, t: Transcript, s: map<Id, NodeState>, f: Id)
    requires Respects(nodes, topo) && KnownDependencies(nodes) && forall id :: id in topo ==> id in nodes
    requires RolledBackFor(Strict, nodes, topo, t, s, f) && t.compensation != []
    ensures forall u :: Undoable(nodes, t.states, f, u) && u in nodes ==> nodes[u].compensable
  {
    CompensationTouches(Strict, nodes, topo, s, f);
    StrictUndoesNothingIff(nodes, topo, s, f);
    forall u | Undoable(nodes, t.states, f, u) && u in nodes ensures nodes[u].compensable {
      assert u in Members(topo);
      assert u !in t.compensation;
    }
  }
}
