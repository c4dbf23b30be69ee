/** How a run of the scheduler ends: when the exit resolves every node, and what a run without
    failures resolves. */
module SchedulerExit {
  import opened Common
  import opened Ids
  import opened Graph
  import opened TaskModels
  import opened Scheduler

  // ---- the exit ----

  /** When a pass leaves nothing in flight the loop exits. Every node then has a state if and
      only if, before the pass, each unresolved node was done waiting with too few inputs; with
      at least one slot it is enough that each was done waiting. */
  lemma ExitResolvesAll(dag: TaskDag, limit: int, s: Sched)
    requires DistinctIds(dag) && Consistent(dag, limit, s) && Prepare(dag, limit, s).inFlight == {}
    ensures Prepare(dag, limit, s).states.Keys == NodeIds(dag)
       <==> forall n :: n in dag.nodes && n.id !in s.states ==> DepsDone(n, s.states) && Infeasible(n, s.states)
    ensures limit >= 1 ==>
              (Prepare(dag, limit, s).states.Keys == NodeIds(dag)
               <==> forall n :: n in dag.nodes && n.id !in s.states ==> DepsDone(n, s.states))
  {
    var p := Prepare(dag, limit, s);
    PrepareConsistent(dag, limit, s);
    LaunchShape(Mark(ReadyNodes(dag.nodes, s), s.states).ready, s.inFlight, limit);
    forall n | n in dag.nodes && n.id !in s.states
      ensures n.id in p.states <==> DepsDone(n, s.states) && Infeasible(n, s.states)
      ensures limit >= 1 && DepsDone(n, s.states) ==> Infeasible(n, s.states)
    {
      MarkedIff(dag, limit, s, n);
    }
    AllKnown(dag, p.states.Keys);
  }

  lemma AllKnown(dag: TaskDag, s: set<Id>)
    requires s <= NodeIds(dag)
    ensures s == NodeIds(dag) <==> forall n :: n in dag.nodes ==> n.id in s
  {
    if s == NodeIds(dag) {
      forall n | n in dag.nodes ensures n.id in s {
        NodeKnown(dag, n);
      }
    } else {
      var d :| d in NodeIds(dag) && d !in s;
      var n := NodeOf(dag, d);
      assert n in dag.nodes && n.id !in s;
    }
  }

  /** An unresolved node that is not in flight is marked exactly when it is done waiting with
      too few inputs; with a free slot nothing else can be ready at the exit. */
  lemma MarkedIff(dag: TaskDag, limit: int, s: Sched, n: DagNode)
    requires DistinctIds(dag) && Prepare(dag, limit, s).inFlight == {} == s.inFlight
    requires n in dag.nodes && n.id !in s.states
    ensures n.id in Prepare(dag, limit, s).states <==> DepsDone(n, s.states) && Infeasible(n, s.states)
    ensures limit >= 1 && DepsDone(n, s.states) ==> Infeasible(n, s.states)
  {
    var ready := ReadyNodes(dag.nodes, s);
    var m := Mark(ready, s.states);
    MarkShape(ready, s.states);
    LaunchShape(m.ready, s.inFlight, limit);
    MarkKeepsSuccesses(ready, s.states, n.inputFrom);
    if n in m.ready {
      KeptUnmarked(dag, s, n);
    } else if n.id in m.states {
      var n' :| n' in ready && n'.id == n.id && n'.inputFrom != [];
      SameNode(dag, n, n');
      MarkedLacks(ready, s.states, n);
    }
  }

  /** Marking fails nodes that had no state, so nobody's successes change. */
  lemma MarkKeepsSuccesses(ready: seq<DagNode>, states: States, inputs: seq<Id>)
    requires forall n :: n in ready ==> n.id !in states
    ensures Successes(inputs, Mark(ready, states).states) == Successes(inputs, states)
  {
    MarkShape(ready, states);
    FailedKeepsSuccesses(inputs, states, Mark(ready, states).states);
    FailedKeepsSuccesses(inputs, Mark(ready, states).states, states);
  }

  lemma {:induction false} MarkedLacks(ready: seq<DagNode>, states: States, n: DagNode)
    requires (forall m :: m in ready ==> m.id !in states) && n in ready && n !in Mark(ready, states).ready
    ensures Infeasible(n, states)
  {
    var k := |ready| - 1;
    var front, last := ready[..k], ready[k];
    assert ready == front + [last];
    MarkKeepsSuccesses(front, states, n.inputFrom);
    if !(n == last && Infeasible(n, Mark(front, states).states)) {
      MarkedLacks(front, states, n);
    }
  }

  // ---- what can be resolved at all ----

  /** Enough of the node's inputs are in the set. */
  predicate EnoughIn(n: DagNode, s: set<Id>) {
    n.inputFrom == [] || |Filter(n.inputFrom, d => d in s)| >= Required(n)
  }

  ghost predicate ClosedUnder(dag: TaskDag, s: set<Id>) {
    forall n :: n in dag.nodes && EnoughIn(n, s) ==> n.id in s
  }

  /** The least set that holds every node with enough inputs in it. */
  ghost predicate LeastClosed(dag: TaskDag, s: set<Id>) {
    ClosedUnder(dag, s) && forall t :: ClosedUnder(dag, t) ==> s <= t
  }

  lemma {:induction false} CountIn(inputs: seq<Id>, states: States, s: set<Id>)
    requires forall d :: Succeeded(states, d) ==> d in s
    ensures Successes(inputs, states) <= |Filter(inputs, d => d in s)|
    ensures (forall d :: d in s ==> Succeeded(states, d)) ==> Successes(inputs, states) == |Filter(inputs, d => d in s)|
  {
    if inputs != [] {
      var front := inputs[..|inputs| - 1];
      CountIn(front, states, s);
      TallyStep(inputs, states);
      SameFilter(front, d => d in s, d => d in s);
    }
  }

  /** In any run, failures or not, only nodes of every closed set are ever launched. */
  lemma {:induction false} LaunchedInClosed(dag: TaskDag, limit: int, run: seq<Moment>, i: nat, s: set<Id>)
    requires DistinctIds(dag) && IsSchedule(dag, limit, run) && i < |run| && ClosedUnder(dag, s)
    ensures run[i].ready.launched <= s
  {
    if i > 0 {
      LaunchedInClosed(dag, limit, run, i - 1, s);
      assert run[i].before == After(run[i - 1]);
    }
    ScheduleConsistent(dag, limit, run, i);
    assert IsMoment(dag, limit, run[i]);
    LaunchFromClosed(dag, limit, run[i].before, s);
  }

  lemma LaunchFromClosed(dag: TaskDag, limit: int, b: Sched, s: set<Id>)
    requires DistinctIds(dag) && Consistent(dag, limit, b) && ClosedUnder(dag, s) && b.launched <= s
    ensures Prepare(dag, limit, b).launched <= s
  {
    var p := Prepare(dag, limit, b);
    PrepareConsistent(dag, limit, b);
    forall d | d in p.launched ensures d in s {
      if d !in b.launched {
        var n := NodeOf(dag, d);
        CountIn(n.inputFrom, p.states, s);
        assert EnoughIn(n, s);
      }
    }
  }

  /** So whatever completes or is skipped lies in every closed set. */
  lemma SucceededInClosed(dag: TaskDag, limit: int, run: seq<Moment>, s: set<Id>)
    requires DistinctIds(dag) && IsSchedule(dag, limit, run) && ClosedUnder(dag, s)
    ensures forall d :: Succeeded(Reached(run).states, d) ==> d in s
  {
    ReachedConsistent(dag, limit, run);
    if run != [] {
      LaunchedInClosed(dag, limit, run, |run| - 1, s);
    }
  }

  /** If no node fails, every completion order resolves exactly the least closed set: the run
      ends with each node of it completed or skipped, and with every node if and only if the
      least closed set is all of them. */
  lemma CleanRunCompletes(dag: TaskDag, limit: int, run: seq<Moment>, final: Sched)
    requires DistinctIds(dag) && limit >= 1
    requires IsSchedule(dag, limit, run) && Stops(dag, limit, Reached(run), final)
    requires forall d :: d in final.states ==> final.states[d] != Failed
    ensures LeastClosed(dag, final.states.Keys)
    ensures final.states.Keys == NodeIds(dag) <==> LeastClosed(dag, NodeIds(dag))
    ensures final.inFlight == {}
    ensures final.results.Keys == set d | d in final.states && final.states[d] == Completed
  {
    ReachedConsistent(dag, limit, run);
    CleanStop(dag, limit, Reached(run), final);
    InEveryClosed(dag, limit, run, final.states);
    LeastClosedUnique(dag, final.states.Keys, NodeIds(dag));
  }

  lemma LeastClosedUnique(dag: TaskDag, s: set<Id>, t: set<Id>)
    requires LeastClosed(dag, s)
    ensures s == t <==> LeastClosed(dag, t)
  {
    if LeastClosed(dag, t) {
      assert ClosedUnder(dag, s) && ClosedUnder(dag, t);
    }
  }

  lemma InEveryClosed(dag: TaskDag, limit: int, run: seq<Moment>, states: States)
    requires DistinctIds(dag) && IsSchedule(dag, limit, run) && states == Reached(run).states
    requires forall d :: d in states ==> states[d] != Failed
    ensures forall t :: ClosedUnder(dag, t) ==> states.Keys <= t
  {
    forall t | ClosedUnder(dag, t) ensures states.Keys <= t {
      SucceededInClosed(dag, limit, run, t);
      AllSucceeded(states, t);
    }
  }

  lemma AllSucceeded(states: States, t: set<Id>)
    requires (forall d :: d in states ==> states[d] != Failed) && (forall d :: Succeeded(states, d) ==> d in t)
    ensures states.Keys <= t
  {
    forall d | d in states ensures d in t {
      assert Succeeded(states, d);
    }
  }

  /** A clean stop adds nothing to the last state, and leaves nothing with enough inputs. */
  lemma CleanStop(dag: TaskDag, limit: int, last: Sched, final: Sched)
    requires DistinctIds(dag) && limit >= 1
    requires Consistent(dag, limit, last) && Stops(dag, limit, last, final)
    requires forall d :: d in final.states ==> final.states[d] != Failed
    ensures final.states == last.states && final.inFlight == {} && ClosedUnder(dag, final.states.Keys)
    ensures final.results.Keys == set d | d in final.states && final.states[d] == Completed
  {
    if |last.states| >= |dag.nodes| {
      AllResolved(dag, limit, last);
      forall n | n in dag.nodes ensures n.id in final.states {
        NodeKnown(dag, n);
      }
    } else {
      QuietPass(dag, limit, last);
      PrepareConsistent(dag, limit, last);
      forall n | n in dag.nodes && EnoughIn(n, final.states.Keys) ensures n.id in final.states {
        CountIn(n.inputFrom, final.states, final.states.Keys);
        assert n !in ReadyNodes(dag.nodes, final);
      }
    }
  }

  // ---- when no node can fail ----

  ghost predicate NoneFailed(states: States) {
    forall d :: d in states ==> states[d] != Failed
  }

  /** No node asks for more inputs than it lists. */
  ghost predicate Satisfiable(dag: TaskDag) {
    forall n :: n in dag.nodes ==> n.inputFrom == [] || Required(n) <= |n.inputFrom|
  }

  /** Where everything can be resolved, no node asks for more inputs than it lists. */
  lemma ResolvableIsSatisfiable(dag: TaskDag)
    requires DistinctIds(dag) && LeastClosed(dag, NodeIds(dag))
    ensures Satisfiable(dag)
  {
    forall n | n in dag.nodes && n.inputFrom != [] ensures Required(n) <= |n.inputFrom| {
      if Required(n) > |n.inputFrom| {
        WithoutUnsatisfiable(dag, n);
        NodeKnown(dag, n);
      }
    }
  }

  lemma WithoutUnsatisfiable(dag: TaskDag, n: DagNode)
    requires DistinctIds(dag) && n in dag.nodes && n.inputFrom != [] && Required(n) > |n.inputFrom|
    ensures ClosedUnder(dag, NodeIds(dag) - {n.id})
  {
    var s := NodeIds(dag) - {n.id};
    forall m | m in dag.nodes && EnoughIn(m, s) ensures m.id in s {
      NodeKnown(dag, m);
      if m.id == n.id {
        SameNode(dag, m, n);
        FilterShorter(n.inputFrom, d => d in s);
      }
    }
  }

  lemma {:induction false} FilterShorter(ids: seq<Id>, keep: Id -> bool)
    ensures |Filter(ids, keep)| <= |ids|
  {
    if ids != [] {
      FilterShorter(ids[..|ids| - 1], keep);
    }
  }

  lemma {:induction false} NoFailures(inputs: seq<Id>, states: States)
    requires NoneFailed(states)
    ensures Failures(inputs, states) == 0
  {
    if inputs != [] {
      NoFailures(inputs[..|inputs| - 1], states);
      TallyStep(inputs, states);
    }
  }

  lemma PrepareFailsNobody(dag: TaskDag, limit: int, s: Sched)
    requires Satisfiable(dag) && NoneFailed(s.states)
    ensures NoneFailed(Prepare(dag, limit, s).states)
  {
    var ready := ReadyNodes(dag.nodes, s);
    forall n | n in ready ensures !Infeasible(n, s.states) {
      NoFailures(n.inputFrom, s.states);
    }
    NothingMarked(ready, s.states);
  }

  lemma {:induction false} NothingMarked(ready: seq<DagNode>, states: States)
    requires (forall n :: n in ready ==> n.id !in states) && forall n :: n in ready ==> !Infeasible(n, states)
    ensures Mark(ready, states) == Marked(states, ready)
  {
    if ready != [] {
      var k := |ready| - 1;
      assert ready == ready[..k] + [ready[k]];
      NothingMarked(ready[..k], states);
    }
  }

  /** If no worker reports a failure, no node fails. */
  lemma {:induction false} NoneEverFails(dag: TaskDag, limit: int, run: seq<Moment>, i: nat)
    requires Satisfiable(dag) && IsSchedule(dag, limit, run) && i < |run|
    requires forall k :: 0 <= k <= i ==> !run[k].outcome.Fail?
    ensures NoneFailed(After(run[i]).states)
  {
    if i > 0 {
      NoneEverFails(dag, limit, run, i - 1);
      assert run[i].before == After(run[i - 1]);
    }
    assert IsMoment(dag, limit, run[i]);
    PrepareFailsNobody(dag, limit, run[i].before);
  }

  /** So if everything can be resolved and no worker fails, every completion order ends with every
      node completed or skipped. */
  lemma ResolvableRunCompletes(dag: TaskDag, limit: int, run: seq<Moment>, final: Sched)
    requires DistinctIds(dag) && LeastClosed(dag, NodeIds(dag)) && limit >= 1
    requires IsSchedule(dag, limit, run) && Stops(dag, limit, Reached(run), final)
    requires forall k :: 0 <= k < |run| ==> !run[k].outcome.Fail?
    ensures final.states.Keys == NodeIds(dag) && NoneFailed(final.states)
  {
    ResolvableIsSatisfiable(dag);
    if run != [] {
      NoneEverFails(dag, limit, run, |run| - 1);
    }
    PrepareFailsNobody(dag, limit, Reached(run));
    CleanRunCompletes(dag, limit, run, final);
  }

  // ---- where inputs follow edges ----

  /** If every declared input is also an edge of the validated graph, a run without failures
      ends with every node completed or skipped. */
  lemma CleanRunOnEdges(dag: TaskDag, topo: seq<Id>, limit: int, run: seq<Moment>, final: Sched)
    requires Validated(dag, topo) && InputsAreEdges(dag) && limit >= 1
    requires IsSchedule(dag, limit, run) && Stops(dag, limit, Reached(run), final)
    requires forall d :: d in final.states ==> final.states[d] != Failed
    ensures final.states.Keys == NodeIds(dag)
    ensures forall d :: d in NodeIds(dag) ==> final.states[d] == Completed || final.states[d] == Skipped
    ensures final.inFlight == {}
    ensures final.results.Keys == set d | d in NodeIds(dag) && final.states[d] == Completed
  {
    CleanRunCompletes(dag, limit, run, final);
    ReachedConsistent(dag, limit, run);
    EdgeStop(dag, topo, limit, Reached(run), final);
  }

  lemma EdgeStop(dag: TaskDag, topo: seq<Id>, limit: int, last: Sched, final: Sched)
    requires Validated(dag, topo) && InputsAreEdges(dag) && limit >= 1
    requires Consistent(dag, limit, last) && Stops(dag, limit, last, final)
    requires forall d :: d in final.states ==> final.states[d] != Failed
    ensures final.states.Keys == NodeIds(dag)
  {
    if |last.states| >= |dag.nodes| {
      AllResolved(dag, limit, last);
    } else {
      QuietPass(dag, limit, last);
      PrepareConsistent(dag, limit, last);
      NothingReadyIffResolved(dag, topo, final);
    }
  }

  /** Where inputs follow edges, a state with nothing in flight and nothing ready is complete. */
  lemma NothingReadyIffResolved(dag: TaskDag, topo: seq<Id>, s: Sched)
    requires Validated(dag, topo) && InputsAreEdges(dag) && s.inFlight == {} && s.states.Keys <= NodeIds(dag)
    ensures s.states.Keys == NodeIds(dag) <==> ReadyNodes(dag.nodes, s) == []
  {
    if s.states.Keys == NodeIds(dag) {
      forall n | n in dag.nodes ensures n.id in s.states {
        NodeKnown(dag, n);
      }
      NoneReady(dag.nodes, s);
    } else {
      var k := LeastUnresolved(topo, s.states, 0);
      var n := NodeOf(dag, topo[k]);
      InputsResolved(dag, topo, s.states, k, n);
      TallyBound(n.inputFrom, s.states);
      assert n in ReadyNodes(dag.nodes, s);
    }
  }

  lemma {:induction false} NoneReady(nodes: seq<DagNode>, s: Sched)
    requires forall n :: n in nodes ==> n !in ReadyNodes(nodes, s)
    ensures ReadyNodes(nodes, s) == []
  {
    if nodes != [] {
      var front := nodes[..|nodes| - 1];
      assert nodes == front + [nodes[|nodes| - 1]];
      assert nodes[|nodes| - 1] in nodes;
      forall n | n in front ensures n !in ReadyNodes(front, s) {
        assert n in nodes;
      }
      NoneReady(front, s);
    }
  }

  lemma {:induction false} LeastUnresolved(topo: seq<Id>, states: States, i: nat) returns (k: nat)
    requires i <= |topo| && (forall j :: 0 <= j < i ==> topo[j] in states)
    requires exists x :: x in topo && x !in states
    ensures k < |topo| && topo[k] !in states && topo[k] in Members(topo)
    ensures forall j :: 0 <= j < k ==> topo[j] in states
    decreases |topo| - i
  {
    if topo[i] in states {
      k := LeastUnresolved(topo, states, i + 1);
    } else {
      k := i;
    }
  }

  lemma InputsResolved(dag: TaskDag, topo: seq<Id>, states: States, k: nat, n: DagNode)
    requires Validated(dag, topo) && InputsAreEdges(dag)
    requires k < |topo| && n in dag.nodes && n.id == topo[k]
    requires forall j :: 0 <= j < k ==> topo[j] in states
    ensures forall u :: u in n.inputFrom ==> u in states
  {
    forall u | u in n.inputFrom ensures u in states {
      var i, j := EdgePositions(NodeIds(dag), dag.edges, topo, u, n.id);
      assert j == k;
    }
  }

  lemma AllResolved(dag: TaskDag, limit: int, s: Sched)
    requires DistinctIds(dag) && Consistent(dag, limit, s) && |s.states| >= |dag.nodes|
    ensures s.states.Keys == NodeIds(dag) && s.inFlight == {}
  {
    DistinctSize(IdsOf(dag.nodes));
    SubsetSize(s.states.Keys, NodeIds(dag));
    assert s.inFlight <= s.states.Keys;
  }

  /** A pass that leaves nothing in flight and fails nobody found nobody ready. */
  lemma QuietPass(dag: TaskDag, limit: int, s: Sched)
    requires DistinctIds(dag) && limit >= 1
    requires Prepare(dag, limit, s).inFlight == {}
    requires forall d :: d in Prepare(dag, limit, s).states ==> Prepare(dag, limit, s).states[d] != Failed
    ensures Prepare(dag, limit, s).states == s.states
    ensures ReadyNodes(dag.nodes, Prepare(dag, limit, s)) == []
  {
    var ready := ReadyNodes(dag.nodes, s);
    var p := Prepare(dag, limit, s);
    MarkShape(ready, s.states);
    var marked := Mark(ready, s.states);
    LaunchShape(marked.ready, s.inFlight, limit);
    assert marked.ready == [];
    assert s.inFlight == {};
    NoneReady(dag.nodes, s);
    ReadySame(dag.nodes, s, p);
  }

  lemma {:induction false} ReadySame(nodes: seq<DagNode>, s: Sched, s': Sched)
    requires s.states == s'.states && s.inFlight == s'.inFlight
    ensures ReadyNodes(nodes, s) == ReadyNodes(nodes, s')
  {
    if nodes != [] {
      ReadySame(nodes[..|nodes| - 1], s, s');
    }
  }
}
