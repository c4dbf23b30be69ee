/** Which graphs the early exit can leave unfinished. Where inputs are the edges and every node
    waits for all of its inputs, the graph alone decides it. */
module SchedulerCoverage {
  import opened Common
  import opened Ids
  import opened Graph
  import opened TaskModels
  import Json
  import opened Scheduler
  import opened SchedulerExit
  import opened Orchestrator

  /** Inputs and edges say the same, and every node asks for all of its inputs. */
  ghost predicate WaitsForAll(dag: TaskDag) {
    && InputsAreEdges(dag)
    && (forall n, u :: n in dag.nodes && Edge(u, n.id) in dag.edges ==> u in n.inputFrom)
    && (forall n :: n in dag.nodes && n.inputFrom != [] ==> Required(n) == |n.inputFrom|)
  }

  ghost predicate FeedsAnEnd(dag: TaskDag, id: Id) {
    exists e :: e in EndNodes(dag) && Edge(id, e) in dag.edges
  }

  /** Every node that is not an end node feeds one directly. */
  ghost predicate Covered(dag: TaskDag) {
    forall id :: id in NodeIds(dag) && !IsEndNode(dag, id) ==> FeedsAnEnd(dag, id)
  }

  ghost predicate EndsResolved(dag: TaskDag, final: Sched) {
    forall e :: e in EndNodes(dag) ==> e in final.states
  }

  ghost predicate AllSettled(dag: TaskDag, final: Sched) {
    final.states.Keys == NodeIds(dag) && NoneFailed(final.states)
  }

  ghost predicate AlwaysEndsResolved(dag: TaskDag, limit: int) {
    forall run, final :: CompletedRun(dag, limit, run, final) ==> EndsResolved(dag, final)
  }

  ghost predicate AlwaysAllSettled(dag: TaskDag, limit: int) {
    forall run, final :: CompletedRun(dag, limit, run, final) ==> AllSettled(dag, final)
  }

  lemma EndNodeKnown(dag: TaskDag, e: Id)
    ensures e in EndNodes(dag) <==> e in NodeIds(dag) && IsEndNode(dag, e)
  {
    assert e in NodeIds(dag) <==> e in IdsOf(dag.nodes);
  }

  // ---- a covered graph ----

  lemma {:induction false} FailuresCount(inputs: seq<Id>, states: States)
    ensures Failures(inputs, states) > 0 <==> exists d :: d in inputs && HasFailed(states, d)
  {
    if inputs != [] {
      assert inputs == inputs[..|inputs| - 1] + [inputs[|inputs| - 1]];
      FailuresCount(inputs[..|inputs| - 1], states);
      TallyStep(inputs, states);
    }
  }

  /** In a covered graph every failure of a node that is not an end node aborts the task. */
  lemma CoveredMustAbort(dag: TaskDag, id: Id, states: States)
    requires DistinctIds(dag) && WaitsForAll(dag) && FeedsAnEnd(dag, id) && HasFailed(states, id)
    ensures MustAbort(dag, id, states)
  {
    var e :| e in EndNodes(dag) && Edge(id, e) in dag.edges;
    EndNodeKnown(dag, e);
    var n := NodeOf(dag, e);
    FailuresCount(n.inputFrom, states);
    StartsReached(dag.edges, id);
    ReachesStep(dag.edges, id, id, e);
    assert Hopeless(dag, id, e, states);
  }

  /** So in a completed run of a covered graph no worker reports a failure. */
  lemma CoveredNeverFails(dag: TaskDag, limit: int, run: seq<Moment>, final: Sched, i: nat)
    requires DistinctIds(dag) && WaitsForAll(dag) && Covered(dag)
    requires CompletedRun(dag, limit, run, final) && i < |run|
    ensures !run[i].outcome.Fail?
  {
    var m := run[i];
    if m.outcome.Fail? {
      ScheduleConsistent(dag, limit, run, i);
      assert IsMoment(dag, limit, m);
      assert HasFailed(After(m).states, m.id);
      if IsEndNode(dag, m.id) {
        EndNodeKnown(dag, m.id);
        FailureStays(dag, limit, run, final, i);
      } else {
        CoveredMustAbort(dag, m.id, After(m).states);
      }
    }
  }

  lemma FailureStays(dag: TaskDag, limit: int, run: seq<Moment>, final: Sched, i: nat)
    requires DistinctIds(dag) && IsSchedule(dag, limit, run) && Stops(dag, limit, Reached(run), final) && i < |run|
    ensures Extends(After(run[i]).states, final.states)
  {
    var last := |run| - 1;
    if i < last {
      LaunchedStays(dag, limit, run, i, last);
      MomentExtends(dag, limit, run, last);
    }
    ReachedConsistent(dag, limit, run);
    PrepareConsistent(dag, limit, Reached(run));
  }

  /** A completed run of a covered graph has every node completed or skipped. */
  lemma CoveredRunSettles(dag: TaskDag, topo: seq<Id>, limit: int, run: seq<Moment>, final: Sched)
    requires Validated(dag, topo) && WaitsForAll(dag) && Covered(dag) && limit >= 1
    requires CompletedRun(dag, limit, run, final)
    ensures AllSettled(dag, final)
  {
    if run != [] {
      forall i | 0 <= i < |run| ensures !run[i].outcome.Fail? {
        CoveredNeverFails(dag, limit, run, final, i);
      }
      NoneEverFails(dag, limit, run, |run| - 1);
    }
    PrepareFailsNobody(dag, limit, Reached(run));
    CleanRunOnEdges(dag, topo, limit, run, final);
  }

  // ---- a node that feeds no end node ----

  /** `down` holds `f` and everything behind it: a node other than `f` is in it exactly when one
      of its inputs is. */
  ghost predicate Cone(dag: TaskDag, f: Id, down: set<Id>) {
    && f in down && down <= NodeIds(dag)
    && forall n :: n in dag.nodes ==> (n.id in down && n.id != f <==> TakesFrom(n, down))
  }

  predicate TakesFrom(n: DagNode, s: set<Id>) {
    exists u :: u in n.inputFrom && u in s
  }

  ghost function Behind(dag: TaskDag, f: Id): set<Id> {
    set x | x in NodeIds(dag) && Reaches(dag.edges, f, x)
  }

  lemma BehindIsCone(dag: TaskDag, topo: seq<Id>, f: Id)
    requires Validated(dag, topo) && WaitsForAll(dag) && f in NodeIds(dag)
    ensures Cone(dag, f, Behind(dag, f))
  {
    var down := Behind(dag, f);
    StartsReached(dag.edges, f);
    forall n | n in dag.nodes ensures n.id in down && n.id != f <==> TakesFrom(n, down) {
      NodeKnown(dag, n);
      if TakesFrom(n, down) {
        var u :| u in n.inputFrom && u in down;
        ReachesStep(dag.edges, f, u, n.id);
        NotBehindItself(dag, topo, f, u, n.id);
      }
      if n.id in down && n.id != f {
        var u := LastStep(dag, f, n.id);
        assert u in n.inputFrom && u in down;
      }
    }
  }

  lemma NotBehindItself(dag: TaskDag, topo: seq<Id>, f: Id, u: Id, v: Id)
    requires Validated(dag, topo) && Reaches(dag.edges, f, u) && Edge(u, v) in dag.edges
    ensures v != f
  {
    if v == f {
      var p :| IsWalk(dag.edges, p) && p[0] == f && p[|p| - 1] == u;
      WalkAppend(dag.edges, p, f);
      assert IsCycle(dag.edges, p + [f]);
      TopologicalAcyclic(NodeIds(dag), dag.edges, topo);
    }
  }

  lemma LastStep(dag: TaskDag, f: Id, v: Id) returns (u: Id)
    requires Closed(NodeIds(dag), dag.edges) && Reaches(dag.edges, f, v) && v != f
    ensures u in Behind(dag, f) && Edge(u, v) in dag.edges
  {
    var p :| IsWalk(dag.edges, p) && p[0] == f && p[|p| - 1] == v;
    var k := |p| - 2;
    u := p[k];
    WalkPrefix(dag.edges, p, k + 1);
    assert Edge(p[k], p[k + 1]) in dag.edges;
    assert p[..k + 1][0] == f && p[..k + 1][k] == u;
    assert Reaches(dag.edges, f, u);
  }

  /** Behind every node lies an end node. */
  lemma EndBehind(dag: TaskDag, topo: seq<Id>, f: Id) returns (e: Id)
    requires Validated(dag, topo) && f in NodeIds(dag)
    ensures e in Behind(dag, f) && e in EndNodes(dag)
  {
    StartsReached(dag.edges, f);
    assert f in Members(topo);
    var k := LastBehind(dag, topo, f, |topo|);
    e := topo[k];
    forall edge | edge in dag.edges ensures edge.from != e {
      if edge.from == e {
        var i, j := EdgePositions(NodeIds(dag), dag.edges, topo, e, edge.to);
        ReachesStep(dag.edges, f, e, edge.to);
      }
    }
    EndNodeKnown(dag, e);
  }

  lemma {:induction false} LastBehind(dag: TaskDag, topo: seq<Id>, f: Id, n: nat) returns (k: nat)
    requires n <= |topo| && (exists x :: x in topo && x in Behind(dag, f))
    requires forall j :: n <= j < |topo| ==> topo[j] !in Behind(dag, f)
    ensures k < |topo| && topo[k] in Behind(dag, f)
    ensures forall j :: k < j < |topo| ==> topo[j] !in Behind(dag, f)
  {
    if topo[n - 1] in Behind(dag, f) {
      k := n - 1;
    } else {
      k := LastBehind(dag, topo, f, n - 1);
    }
  }

  // ---- everything else first ----

  /** A run in which no worker failed and nothing of the cone succeeded. */
  ghost predicate Spares(dag: TaskDag, limit: int, run: seq<Moment>, down: set<Id>) {
    && IsSchedule(dag, limit, run)
    && WorkersSucceed(run) && NoneFailed(Reached(run).states) && Reached(run).states.Keys !! down
  }

  predicate WorkersSucceed(run: seq<Moment>) {
    forall i :: 0 <= i < |run| ==> !run[i].outcome.Fail?
  }

  lemma {:induction false} MissingInput(inputs: seq<Id>, states: States, u: Id)
    requires u in inputs && !Succeeded(states, u)
    ensures Successes(inputs, states) < |inputs|
  {
    var front, last := inputs[..|inputs| - 1], inputs[|inputs| - 1];
    assert inputs == front + [last];
    TallyStep(inputs, states);
    if last == u {
      FilterShorter(front, d => Succeeded(states, d));
    } else {
      MissingInput(front, states, u);
    }
  }

  /** While nothing of the cone has succeeded, only its tip can have been launched. */
  lemma OnlyTheTip(dag: TaskDag, limit: int, s: Sched, f: Id, down: set<Id>)
    requires DistinctIds(dag) && WaitsForAll(dag) && Consistent(dag, limit, s) && Cone(dag, f, down)
    requires forall d :: d in down ==> !Succeeded(s.states, d)
    ensures forall d :: d in s.launched && d in down ==> d == f
  {
    forall d | d in s.launched && d in down ensures d == f {
      var n := NodeOf(dag, d);
      if d != f {
        var u :| u in n.inputFrom && u in down;
        MissingInput(n.inputFrom, s.states, u);
      }
    }
  }

  /** With a slot for every node, every ready node is launched. */
  lemma {:induction false} EveryoneFits(ready: seq<DagNode>, inFlight: set<Id>, limit: int, ids: set<Id>)
    requires inFlight <= ids && |ids| <= limit && forall n :: n in ready ==> n.id in ids
    ensures Launch(ready, inFlight, limit) <= ids
    ensures forall n :: n in ready ==> n.id in Launch(ready, inFlight, limit)
  {
    if ready != [] {
      var k := |ready| - 1;
      assert ready == ready[..k] + [ready[k]];
      EveryoneFits(ready[..k], inFlight, limit, ids);
      SubsetSize(Launch(ready[..k], inFlight, limit), ids);
    }
  }

  /** A pass that finds no failure marks nothing, and launches whatever has all of its inputs. */
  lemma CleanPass(dag: TaskDag, limit: int, s: Sched)
    requires DistinctIds(dag) && WaitsForAll(dag) && limit >= |dag.nodes|
    requires Consistent(dag, limit, s) && NoneFailed(s.states)
    ensures Prepare(dag, limit, s).states == s.states
    ensures forall n :: n in dag.nodes && n.id !in s.states && (forall u :: u in n.inputFrom ==> u in s.states) ==>
              n.id in Prepare(dag, limit, s).inFlight
  {
    var ready := ReadyNodes(dag.nodes, s);
    forall n | n in ready ensures !Infeasible(n, s.states) && n.id in NodeIds(dag) {
      NoFailures(n.inputFrom, s.states);
      NodeKnown(dag, n);
    }
    NothingMarked(ready, s.states);
    DistinctSize(IdsOf(dag.nodes));
    EveryoneFits(ready, s.inFlight, limit, NodeIds(dag));
    LaunchShape(ready, s.inFlight, limit);
    forall n | n in dag.nodes && n.id !in s.states && (forall u :: u in n.inputFrom ==> u in s.states)
      ensures n.id in Prepare(dag, limit, s).inFlight
    {
      TallyBound(n.inputFrom, s.states);
      NoFailures(n.inputFrom, s.states);
      assert n in ready || n.id in s.inFlight;
    }
  }

  lemma Unfinished(dag: TaskDag, states: States, x: Id)
    requires DistinctIds(dag) && states.Keys <= NodeIds(dag) && x in NodeIds(dag) && x !in states
    ensures |states| < |dag.nodes|
  {
    DistinctSize(IdsOf(dag.nodes));
    SubsetSize(states.Keys, NodeIds(dag));
    assert |states| == |states.Keys|;
  }

  /** A node outside the cone that is unresolved although all of its inputs are resolved. */
  lemma NextOutside(dag: TaskDag, topo: seq<Id>, f: Id, down: set<Id>, states: States) returns (n: DagNode)
    requires Validated(dag, topo) && WaitsForAll(dag) && Cone(dag, f, down)
    requires exists x :: x in NodeIds(dag) && x !in down && x !in states
    ensures n in dag.nodes && n.id !in down && n.id !in states && n.id in NodeIds(dag)
    ensures forall u :: u in n.inputFrom ==> u in states
  {
    var padded := map x | x in states.Keys + down :: Completed;
    var x :| x in NodeIds(dag) && x !in down && x !in states;
    assert x in Members(topo);
    var k := LeastUnresolved(topo, padded, 0);
    n := NodeOf(dag, topo[k]);
    InputsResolved(dag, topo, padded, k, n);
    forall u | u in n.inputFrom ensures u in states {
      assert !TakesFrom(n, down);
    }
  }

  /** Every node outside the cone can be completed while the cone waits. */
  lemma {:induction false} EverythingElse(dag: TaskDag, topo: seq<Id>, limit: int, f: Id, down: set<Id>,
                                          run: seq<Moment>) returns (longer: seq<Moment>)
    requires Validated(dag, topo) && WaitsForAll(dag) && Cone(dag, f, down) && limit >= |dag.nodes|
    requires Spares(dag, limit, run, down)
    ensures Spares(dag, limit, longer, down) && Reached(longer).states.Keys == NodeIds(dag) - down
    decreases NodeIds(dag) - Reached(run).states.Keys
  {
    var s := Reached(run);
    ReachedConsistent(dag, limit, run);
    if x :| x in NodeIds(dag) && x !in down && x !in s.states {
      var n := NextOutside(dag, topo, f, down, s.states);
      var next := OneMore(dag, limit, down, run, n);
      longer := EverythingElse(dag, topo, limit, f, down, next);
    } else {
      longer := run;
      AllOutside(NodeIds(dag), down, s.states);
    }
  }

  lemma AllOutside(ids: set<Id>, down: set<Id>, states: States)
    requires states.Keys <= ids && states.Keys !! down && forall x :: x in ids && x !in down ==> x in states
    ensures states.Keys == ids - down
  {
  }

  lemma OneMore(dag: TaskDag, limit: int, down: set<Id>, run: seq<Moment>, n: DagNode) returns (longer: seq<Moment>)
    requires DistinctIds(dag) && WaitsForAll(dag) && limit >= |dag.nodes| && Spares(dag, limit, run, down)
    requires n in dag.nodes && n.id in NodeIds(dag) && n.id !in down && n.id !in Reached(run).states
    requires forall u :: u in n.inputFrom ==> u in Reached(run).states
    ensures Spares(dag, limit, longer, down) && Reached(longer).states.Keys == Reached(run).states.Keys + {n.id}
  {
    var s := Reached(run);
    ReachedConsistent(dag, limit, run);
    CleanPass(dag, limit, s);
    longer := OneStep(dag, limit, run, n.id, Done(Json.Null));
    OneMoreStates(s.states, Reached(longer).states, n.id, down);
  }

  lemma OneMoreStates(states: States, states': States, id: Id, down: set<Id>)
    requires NoneFailed(states) && states' == states[id := Completed] && states.Keys !! down && id !in down
    ensures NoneFailed(states') && states'.Keys !! down && states'.Keys == states.Keys + {id}
  {
  }

  /** A pass that marks nothing and lets node `id` finish. */
  lemma OneStep(dag: TaskDag, limit: int, run: seq<Moment>, id: Id, outcome: Outcome) returns (longer: seq<Moment>)
    requires DistinctIds(dag) && IsSchedule(dag, limit, run)
    requires var s := Reached(run);
             && Consistent(dag, limit, s) && id in NodeIds(dag) && id !in s.states
             && id in Prepare(dag, limit, s).inFlight && Prepare(dag, limit, s).states == s.states
    ensures IsSchedule(dag, limit, longer) && |longer| == |run| + 1
    ensures longer[|run|].id == id && longer[|run|].outcome == outcome
    ensures WorkersSucceed(run) ==> WorkersSucceed(longer[..|run|])
    ensures WorkersSucceed(run) && !outcome.Fail? ==> WorkersSucceed(longer)
    ensures Reached(longer).states == Reached(run).states[id := StateOf(outcome)]
    ensures Reached(longer).inFlight == Prepare(dag, limit, Reached(run)).inFlight - {id}
  {
    var s := Reached(run);
    Unfinished(dag, s.states, id);
    var m := Moment(s, Prepare(dag, limit, s), id, outcome);
    RunExtends(dag, limit, run, m);
    longer := run + [m];
    assert longer[..|run|] == run;
  }

  // ---- then the failure ----

  ghost predicate OnlyTipFailed(dag: TaskDag, f: Id, down: set<Id>, s: Sched) {
    && s.states.Keys == NodeIds(dag) - down + {f} && s.inFlight == {}
    && (forall d :: HasFailed(s.states, d) <==> d == f)
  }

  /** The run that completes everything outside the cone and then fails its tip. */
  lemma TipFails(dag: TaskDag, topo: seq<Id>, limit: int, f: Id, down: set<Id>) returns (run: seq<Moment>)
    requires Validated(dag, topo) && WaitsForAll(dag) && Cone(dag, f, down) && limit >= |dag.nodes|
    ensures IsSchedule(dag, limit, run) && run != []
    ensures run[|run| - 1].id == f && WorkersSucceed(run[..|run| - 1])
    ensures OnlyTipFailed(dag, f, down, Reached(run))
  {
    SparesAtStart(dag, limit, down);
    var before := EverythingElse(dag, topo, limit, f, down, []);
    var s := Reached(before);
    ReachedConsistent(dag, limit, before);
    TipIsNext(dag, limit, f, down, s);
    TipUnresolved(NodeIds(dag), f, down, s.states);
    run := ThenTheTip(dag, limit, f, before);
    FailedTip(dag, f, down, s.states, Reached(run));
  }

  lemma SparesAtStart(dag: TaskDag, limit: int, down: set<Id>)
    ensures Spares(dag, limit, [], down)
  {
  }

  lemma ThenTheTip(dag: TaskDag, limit: int, f: Id, run: seq<Moment>) returns (longer: seq<Moment>)
    requires DistinctIds(dag) && IsSchedule(dag, limit, run) && WorkersSucceed(run) && f in NodeIds(dag)
    requires var s := Reached(run);
             f !in s.states && Prepare(dag, limit, s).inFlight == {f} && Prepare(dag, limit, s).states == s.states
    ensures IsSchedule(dag, limit, longer) && longer != []
    ensures longer[|longer| - 1].id == f && WorkersSucceed(longer[..|longer| - 1])
    ensures Reached(longer).states == Reached(run).states[f := Failed] && Reached(longer).inFlight == {f} - {f}
  {
    ReachedConsistent(dag, limit, run);
    longer := OneStep(dag, limit, run, f, Fail);
  }

  lemma TipUnresolved(ids: set<Id>, f: Id, down: set<Id>, states: States)
    requires states.Keys == ids - down && f in down && down <= ids
    ensures f in ids && f !in states
  {
  }

  lemma FailedTip(dag: TaskDag, f: Id, down: set<Id>, states: States, s: Sched)
    requires NoneFailed(states) && states.Keys == NodeIds(dag) - down
    requires s.states == states[f := Failed] && s.inFlight == {f} - {f}
    ensures OnlyTipFailed(dag, f, down, s)
  {
  }

  lemma TipIsNext(dag: TaskDag, limit: int, f: Id, down: set<Id>, s: Sched)
    requires DistinctIds(dag) && Closed(NodeIds(dag), dag.edges)
    requires WaitsForAll(dag) && Cone(dag, f, down) && limit >= |dag.nodes|
    requires Consistent(dag, limit, s) && NoneFailed(s.states) && s.states.Keys == NodeIds(dag) - down
    ensures Prepare(dag, limit, s).inFlight == {f} && Prepare(dag, limit, s).states == s.states
  {
    var p := Prepare(dag, limit, s);
    CleanPass(dag, limit, s);
    PrepareConsistent(dag, limit, s);
    OnlyTheTip(dag, limit, p, f, down);
    var n := NodeOf(dag, f);
    InputsOfTip(dag, f, down, n);
    assert forall d :: d in p.inFlight ==> d in NodeIds(dag) && d !in p.states;
  }

  lemma InputsOfTip(dag: TaskDag, f: Id, down: set<Id>, n: DagNode)
    requires Closed(NodeIds(dag), dag.edges) && WaitsForAll(dag) && Cone(dag, f, down) && n in dag.nodes && n.id == f
    ensures forall u :: u in n.inputFrom ==> u in NodeIds(dag) - down
  {
    assert !TakesFrom(n, down);
    forall u | u in n.inputFrom ensures u in NodeIds(dag) {
      assert Edge(u, n.id) in dag.edges;
    }
  }

  // ---- and the run stops ----

  /** What a pass marks was done waiting. */
  lemma MarkedWasDone(dag: TaskDag, limit: int, s: Sched, n: DagNode)
    requires DistinctIds(dag) && n in dag.nodes && n.id !in s.states && n.id in Prepare(dag, limit, s).states
    ensures DepsDone(n, s.states)
  {
    var ready := ReadyNodes(dag.nodes, s);
    MarkShape(ready, s.states);
    var n' :| n' in ready && n'.id == n.id && n'.inputFrom != [];
    SameNode(dag, n, n');
  }

  /** A node behind the failed tip that does not take from it directly goes on waiting. */
  lemma StillWaits(n: DagNode, states: States, f: Id, down: set<Id>)
    requires TakesFrom(n, down) && f !in n.inputFrom && Required(n) == |n.inputFrom|
    requires (forall d :: d in down ==> !Succeeded(states, d)) && forall d :: HasFailed(states, d) <==> d == f
    ensures !DepsDone(n, states)
  {
    var u :| u in n.inputFrom && u in down;
    MissingInput(n.inputFrom, states, u);
    FailuresCount(n.inputFrom, states);
  }

  /** After the tip failed, a node that does not take from it directly stays as it is. */
  lemma NotMarked(dag: TaskDag, limit: int, f: Id, down: set<Id>, s: Sched, n: DagNode)
    requires DistinctIds(dag) && WaitsForAll(dag) && Cone(dag, f, down)
    requires OnlyTipFailed(dag, f, down, s) && n in dag.nodes && n.id in down && n.id != f && f !in n.inputFrom
    ensures n.id !in s.states && n.id !in Prepare(dag, limit, s).states
  {
    TipStates(dag, f, down, s);
    StillWaits(n, s.states, f, down);
    if n.id in Prepare(dag, limit, s).states {
      MarkedWasDone(dag, limit, s, n);
    }
  }

  lemma NoneSucceeds(dag: TaskDag, limit: int, f: Id, down: set<Id>, s: Sched)
    requires DistinctIds(dag) && Consistent(dag, limit, s) && OnlyTipFailed(dag, f, down, s) && f in down
    ensures forall d :: d in down ==> !Succeeded(Prepare(dag, limit, s).states, d)
  {
    var p := Prepare(dag, limit, s);
    TipStates(dag, f, down, s);
    PrepareGrows(dag, limit, s);
    forall d | d in p.states && d !in s.states ensures p.states[d] == Failed {
      NewlyMarked(dag, limit, s, d);
    }
    LaterNoneSucceeds(s.states, p.states, down);
  }

  lemma TipStates(dag: TaskDag, f: Id, down: set<Id>, s: Sched)
    requires OnlyTipFailed(dag, f, down, s) && f in down
    ensures forall d :: d in down ==> !Succeeded(s.states, d)
    ensures forall d :: d in down && d != f ==> d !in s.states
  {
    forall d | d in down ensures d in s.states ==> d == f {
      assert d !in NodeIds(dag) - down;
    }
    assert HasFailed(s.states, f);
  }

  lemma LaterNoneSucceeds(states: States, states': States, down: set<Id>)
    requires Extends(states, states') && forall d :: d in states' && d !in states ==> states'[d] == Failed
    requires forall d :: d in down ==> !Succeeded(states, d)
    ensures forall d :: d in down ==> !Succeeded(states', d)
  {
    forall d | d in down ensures !Succeeded(states', d) {
      assert !Succeeded(states, d);
    }
  }

  /** After the tip failed nothing more is launched. */
  lemma NothingLaunched(dag: TaskDag, limit: int, f: Id, down: set<Id>, s: Sched)
    requires DistinctIds(dag) && WaitsForAll(dag) && Cone(dag, f, down) && Consistent(dag, limit, s)
    requires OnlyTipFailed(dag, f, down, s)
    ensures Prepare(dag, limit, s).inFlight == {}
  {
    var p := Prepare(dag, limit, s);
    PrepareConsistent(dag, limit, s);
    NoneSucceeds(dag, limit, f, down, s);
    OnlyTheTip(dag, limit, p, f, down);
    InFlightUnresolved(NodeIds(dag), limit, p, f, down, s.states);
  }

  lemma InFlightUnresolved(ids: set<Id>, limit: int, p: Sched, f: Id, down: set<Id>, states: States)
    requires Bookkeeping(ids, limit, p) && Extends(states, p.states) && states.Keys == ids - down + {f}
    requires forall d :: d in p.launched && d in down ==> d == f
    ensures p.inFlight == {}
  {
    forall d ensures d !in p.inFlight {
      if d !in states && d in ids {
        assert d in down;
      }
    }
  }

  /** A node that feeds no end node may fail unnoticed. */
  lemma Unnoticed(dag: TaskDag, f: Id, down: set<Id>, s: Sched)
    requires DistinctIds(dag) && WaitsForAll(dag) && Cone(dag, f, down) && down == Behind(dag, f)
    requires OnlyTipFailed(dag, f, down, s) && f in NodeIds(dag) && !IsEndNode(dag, f) && !FeedsAnEnd(dag, f)
    ensures !MustAbort(dag, f, s.states)
  {
    forall e | e in EndNodes(dag) && Reaches(dag.edges, f, e) && e in NodeIds(dag)
      ensures CanStillSucceed(NodeOf(dag, e), s.states)
    {
      var n := NodeOf(dag, e);
      EndNodeKnown(dag, e);
      EndInCone(dag, f, down, n);
      FailuresCount(n.inputFrom, s.states);
    }
  }

  lemma EndInCone(dag: TaskDag, f: Id, down: set<Id>, n: DagNode)
    requires WaitsForAll(dag) && Cone(dag, f, down) && n in dag.nodes && n.id in down
    requires n.id in EndNodes(dag) && !IsEndNode(dag, f) && !FeedsAnEnd(dag, f)
    ensures n.id != f && n.inputFrom != [] && f !in n.inputFrom
  {
    EndNodeKnown(dag, n.id);
    assert TakesFrom(n, down);
  }

  /** If some node is neither an end node nor feeds one, a run in which it fails last counts as
      completed, and leaves an end node behind it without a state. */
  lemma UncoveredRunLeaves(dag: TaskDag, topo: seq<Id>, limit: int, f: Id)
      returns (run: seq<Moment>, final: Sched, e: Id)
    requires Validated(dag, topo) && WaitsForAll(dag) && limit >= |dag.nodes|
    requires f in NodeIds(dag) && !IsEndNode(dag, f) && !FeedsAnEnd(dag, f)
    ensures CompletedRun(dag, limit, run, final) && e in EndNodes(dag) && e !in final.states
  {
    var down := Behind(dag, f);
    BehindIsCone(dag, topo, f);
    run := TipFails(dag, topo, limit, f, down);
    var s := Reached(run);
    final := Prepare(dag, limit, s);
    ReachedConsistent(dag, limit, run);
    e := EndBehind(dag, topo, f);
    EndsUnmarked(dag, limit, f, down, s);
    Unfinished(dag, s.states, e);
    NothingLaunched(dag, limit, f, down, s);
    Unnoticed(dag, f, down, s);
    NobodyAborts(dag, run);
  }

  lemma NobodyAborts(dag: TaskDag, run: seq<Moment>)
    requires run != [] && WorkersSucceed(run[..|run| - 1])
    requires !MustAbort(dag, run[|run| - 1].id, Reached(run).states)
    ensures NeverAborts(dag, run, |run|)
  {
    forall i | 0 <= i < |run| - 1 ensures !run[i].outcome.Fail? {
      assert run[i] == run[..|run| - 1][i];
    }
  }

  /** No end node is failed, and those behind `f` have no state. */
  lemma EndsUnmarked(dag: TaskDag, limit: int, f: Id, down: set<Id>, s: Sched)
    requires DistinctIds(dag) && WaitsForAll(dag) && Cone(dag, f, down) && Consistent(dag, limit, s)
    requires OnlyTipFailed(dag, f, down, s) && !IsEndNode(dag, f) && !FeedsAnEnd(dag, f)
    ensures forall e :: e in EndNodes(dag) && e in down ==> e !in s.states && e !in Prepare(dag, limit, s).states
    ensures !AnyEndFailed(dag, Prepare(dag, limit, s).states)
  {
    var p := Prepare(dag, limit, s);
    PrepareConsistent(dag, limit, s);
    forall e | e in EndNodes(dag) && e in down ensures e !in s.states && e !in p.states {
      var n := NodeOf(dag, e);
      EndInCone(dag, f, down, n);
      NotMarked(dag, limit, f, down, s, n);
    }
    forall e | e in EndNodes(dag) ensures !HasFailed(p.states, e) {
      EndNodeKnown(dag, e);
      if e !in down {
        assert e in s.states && !HasFailed(s.states, e);
      }
    }
  }

  /** Where inputs are the edges and every node waits for all of its inputs, the graph decides
      whether a completed task can have an end node that never ran: it cannot, and then every
      node completed or was skipped, if and only if every node that is not an end node feeds an
      end node directly. */
  lemma CompletionIffCovered(dag: TaskDag, topo: seq<Id>, limit: int)
    requires Validated(dag, topo) && WaitsForAll(dag) && limit >= 1 && limit >= |dag.nodes|
    ensures AlwaysEndsResolved(dag, limit) <==> Covered(dag)
    ensures AlwaysAllSettled(dag, limit) <==> Covered(dag)
  {
    if Covered(dag) {
      forall run, final | CompletedRun(dag, limit, run, final)
        ensures AllSettled(dag, final) && EndsResolved(dag, final)
      {
        CoveredRunSettles(dag, topo, limit, run, final);
        SettledIsResolved(dag, final);
      }
    } else {
      var f :| f in NodeIds(dag) && !IsEndNode(dag, f) && !FeedsAnEnd(dag, f);
      var run, final, e := UncoveredRunLeaves(dag, topo, limit, f);
      EndNodeKnown(dag, e);
      assert !EndsResolved(dag, final) && !AllSettled(dag, final);
    }
  }

  lemma SettledIsResolved(dag: TaskDag, final: Sched)
    requires AllSettled(dag, final)
    ensures EndsResolved(dag, final)
  {
    forall e | e in EndNodes(dag) ensures e in final.states {
      EndNodeKnown(dag, e);
    }
  }
}
