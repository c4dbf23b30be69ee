/** `NopOrchestrator._runDag` and the loops around it: the scheduling loop proved to follow
    the transition system of `Scheduler`, end-node reachability, and saga rollback. */
module Orchestrator {
  import opened Common
  import opened Ids
  import opened Graph
  import opened TaskModels
  import opened Json
  import opened Scheduler
  import opened SchedulerExit

  // ---- reachability ----

  /** `_canReachEndNode`: breadth-first search from the failed node along the edges. */
  method CanReachEndNode(edges: seq<Edge>, end: Id, from: Id) returns (r: bool)
    ensures r <==> Reaches(edges, from, end)
  {
    var nodes := {from} + (set e | e in edges :: e.to);
    var seen: set<Id> := {};
    var queue := [from];
    StartsReached(edges, from);
    while |queue| > 0
      invariant seen <= nodes && Members(queue) <= nodes
      invariant end !in seen
      invariant forall x :: x in seen || x in queue ==> Reaches(edges, from, x)
      invariant from in seen || from in queue
      invariant forall u, v :: u in seen && Edge(u, v) in edges ==> v in seen || v in queue
      decreases nodes - seen, |queue|
    {
      var cur := queue[0];
      ghost var before := queue;
      assert queue == [cur] + queue[1..];
      queue := queue[1..];
      if cur == end {
        return true;
      }
      if cur in seen {
        continue;
      }
      assert cur in Members(before);
      seen := seen + {cur};
      var next := Targets(edges, cur);
      forall v ensures v in next <==> Edge(cur, v) in edges {
        TargetsAreEdges(edges, cur, v);
      }
      forall v | v in next ensures v in nodes && Reaches(edges, from, v) {
        assert Edge(cur, v).to in nodes;
        ReachesStep(edges, from, cur, v);
      }
      queue := queue + next;
    }
    ClosedUnderEdges(edges, seen, from, end);
    return false;
  }

  lemma StartsReached(edges: seq<Edge>, u: Id)
    ensures Reaches(edges, u, u)
  {
    assert IsWalk(edges, [u]);
  }

  lemma ReachesStep(edges: seq<Edge>, u: Id, v: Id, w: Id)
    requires Reaches(edges, u, v) && Edge(v, w) in edges
    ensures Reaches(edges, u, w)
  {
    var p :| IsWalk(edges, p) && p[0] == u && p[|p| - 1] == v;
    WalkAppend(edges, p, w);
    assert IsWalk(edges, p + [w]) && (p + [w])[0] == u && (p + [w])[|p + [w]| - 1] == w;
  }

  lemma ClosedUnderEdges(edges: seq<Edge>, seen: set<Id>, from: Id, end: Id)
    requires from in seen && end !in seen
    requires forall u, v :: u in seen && Edge(u, v) in edges ==> v in seen
    ensures !Reaches(edges, from, end)
  {
    forall p | IsWalk(edges, p) && p[0] == from ensures p[|p| - 1] != end {
      WalkStaysInside(edges, seen, p);
    }
  }

  lemma {:induction false} WalkStaysInside(edges: seq<Edge>, seen: set<Id>, p: seq<Id>)
    requires forall u, v :: u in seen && Edge(u, v) in edges ==> v in seen
    requires IsWalk(edges, p) && p[0] in seen
    ensures p[|p| - 1] in seen
    decreases |p|
  {
    if |p| > 1 {
      assert Edge(p[0], p[1]) in edges;
      WalkSuffix(edges, p, 1);
      WalkStaysInside(edges, seen, p[1..]);
    }
  }

  // ---- saga rollback ----

  datatype SagaResult = SagaResult(attempted: nat, succeeded: nat, failed: nat, failedIds: seq<Id>)

  predicate HasAction(dag: TaskDag, id: Id) {
    id in NodeIds(dag) && NodeOf(dag, id).compensateAction != []
  }

  predicate IsCompleted(dag: TaskDag, states: States, id: Id) {
    id in states && states[id] == Completed && id in NodeIds(dag)
  }

  function CompletedBackward(dag: TaskDag, topo: seq<Id>, states: States): seq<Id> {
    Reverse(Filter(topo, id => IsCompleted(dag, states, id)))
  }

  function MissingActions(dag: TaskDag, topo: seq<Id>, states: States): seq<Id> {
    Filter(CompletedBackward(dag, topo, states), id => !HasAction(dag, id))
  }

  function SagaPlan(dag: TaskDag, topo: seq<Id>, states: States): seq<Id> {
    Filter(CompletedBackward(dag, topo, states), id => HasAction(dag, id))
  }

  predicate Refuses(dag: TaskDag, topo: seq<Id>, strict: bool, states: States) {
    strict && MissingActions(dag, topo, states) != []
  }

  /** What a rollback attempts: a strict one with a missing action nothing, any other its plan. */
  function Attempts(dag: TaskDag, topo: seq<Id>, strict: bool, states: States): seq<Id> {
    if Refuses(dag, topo, strict, states) then [] else SagaPlan(dag, topo, states)
  }

  /** What a rollback reports: a refused one names what is missing, any other counts its plan. */
  ghost predicate Reports(dag: TaskDag, topo: seq<Id>, strict: bool, states: States, r: SagaResult) {
    && r.attempted == |Attempts(dag, topo, strict, states)|
    && r.failed == |r.failedIds|
    && (if Refuses(dag, topo, strict, states)
        then r.succeeded == 0 && r.failedIds == MissingActions(dag, topo, states)
        else r.succeeded + r.failed == r.attempted
             && forall id :: id in r.failedIds ==> id in Attempts(dag, topo, strict, states))
  }

  /** Compensating delegations run one after another; each succeeds or fails, and an aborted
      task throws out of the loop, before or after the delegation was sent, which is the `None`
      result. `log` is what was attempted. */
  method RunSagaCompensation(dag: TaskDag, topo: seq<Id>, strict: bool, states: States, quiet: bool)
      returns (r: Option<SagaResult>, ghost log: seq<Id>)
    ensures r.Some? ==> Reports(dag, topo, strict, states, r.value)
    ensures log <= Attempts(dag, topo, strict, states)
    ensures r.Some? ==> log == Attempts(dag, topo, strict, states)
    ensures quiet ==> r.Some?
  {
    log := [];
    var completed := CompletedBackward(dag, topo, states);
    if strict {
      var missing := Filter(completed, id => !HasAction(dag, id));
      if |missing| > 0 {
        return Some(SagaResult(0, 0, |missing|, missing)), [];
      }
    }
    var toCompensate := Filter(completed, id => HasAction(dag, id));
    var succeeded: nat := 0;
    var failedIds: seq<Id> := [];
    for i := 0 to |toCompensate|
      invariant log == toCompensate[..i]
      invariant succeeded + |failedIds| == i
      invariant forall id :: id in failedIds ==> id in log
    {
      var thrownBeforeSending: bool := *;
      if thrownBeforeSending && !quiet {
        return None, log;
      }
      log := log + [toCompensate[i]];
      var thrownAfterSending: bool := *;
      if thrownAfterSending && !quiet {
        return None, log;
      }
      var completedAction: bool := *;
      if completedAction {
        succeeded := succeeded + 1;
      } else {
        failedIds := failedIds + [toCompensate[i]];
      }
    }
    return Some(SagaResult(|toCompensate|, succeeded, |failedIds|, failedIds)), log;
  }

  /** Rollback visits exactly the completed nodes that declare an action, each once, and
      never a node before a completed node downstream of it. */
  lemma SagaPlanBackward(dag: TaskDag, topo: seq<Id>, states: States)
    requires Validated(dag, topo)
    ensures var plan := SagaPlan(dag, topo, states);
            && (forall id :: id in plan <==> IsCompleted(dag, states, id) && HasAction(dag, id))
            && (forall i, j :: 0 <= i < j < |plan| ==> plan[i] != plan[j] && !Reaches(dag.edges, plan[i], plan[j]))
  {
    var keep := id => IsCompleted(dag, states, id);
    var act := id => HasAction(dag, id);
    var forwards := Filter(topo, keep);
    SameFilter(topo, keep, id => IsCompleted(dag, states, id));
    var backward := Reverse(forwards);
    assert backward == CompletedBackward(dag, topo, states);
    SameFilter(backward, act, id => HasAction(dag, id));
    var plan := Filter(backward, act);
    assert plan == SagaPlan(dag, topo, states);
    forall id ensures id in plan <==> IsCompleted(dag, states, id) && HasAction(dag, id) {
      assert id in topo <==> id in Members(topo);
    }
    forall i, j | 0 <= i < j < |plan| ensures plan[i] != plan[j] && !Reaches(dag.edges, plan[i], plan[j]) {
      PlanPair(dag, topo, keep, act, i, j);
    }
  }

  lemma PlanPair(dag: TaskDag, topo: seq<Id>, keep: Id -> bool, act: Id -> bool, i: nat, j: nat)
    requires Validated(dag, topo)
    requires i < j < |Filter(Reverse(Filter(topo, keep)), act)|
    ensures var plan := Filter(Reverse(Filter(topo, keep)), act);
            plan[i] != plan[j] && !Reaches(dag.edges, plan[i], plan[j])
  {
    var backward := Reverse(Filter(topo, keep));
    var a, b := FilterOrder(backward, act, i, j);
    BackwardPair(dag, topo, keep, a, b);
  }

  lemma BackwardPair(dag: TaskDag, topo: seq<Id>, keep: Id -> bool, a: nat, b: nat)
    requires Validated(dag, topo)
    requires a < b < |Filter(topo, keep)|
    ensures var backward := Reverse(Filter(topo, keep));
            backward[a] != backward[b] && !Reaches(dag.edges, backward[a], backward[b])
  {
    var b', a' := FilterReversed(topo, keep, a, b);
    NoWayBack(dag, topo, b', a');
  }

  lemma NoWayBack(dag: TaskDag, topo: seq<Id>, i: nat, j: nat)
    requires Validated(dag, topo) && i < j < |topo|
    ensures topo[i] != topo[j] && !Reaches(dag.edges, topo[j], topo[i])
  {
    forall p | IsWalk(dag.edges, p) && p[0] == topo[j] ensures p[|p| - 1] != topo[i] {
      var k := WalkAdvances(NodeIds(dag), dag.edges, topo, p, j);
    }
  }

  // ---- aggregation of end-node results ----

  datatype Strategy = First | All | FastestK | MergeObjects

  function Decimal(n: nat): Text
    decreases n
  {
    (if n < 10 then [] else Decimal(n / 10)) + [(0x30 + n % 10) as CodeUnit]
  }

  /** `_result_` followed by the position. */
  function ResultKey(i: nat): Text {
    [0x5F, 0x72, 0x65, 0x73, 0x75, 0x6C, 0x74, 0x5F] + Decimal(i)
  }

  function MergeResults(results: seq<Json>): map<Text, Json> {
    if results == [] then map[]
    else
      var i := |results| - 1;
      var merged := MergeResults(results[..i]);
      if results[i].Obj? then merged + results[i].fields else merged[ResultKey(i) := results[i]]
  }

  function Aggregate(strategy: Strategy, results: seq<Json>): Json {
    if results == [] then Obj(map[])
    else match strategy
      case First => results[0]
      case All => Arr(results)
      case FastestK => Arr(results)
      case MergeObjects => Obj(MergeResults(results))
  }

  /** The retained results of the listed nodes, in list order. */
  function ResultsOf(ids: seq<Id>, results: map<Id, Json>): seq<Json> {
    if ids == [] then []
    else
      ResultsOf(ids[..|ids| - 1], results) +
      (if ids[|ids| - 1] in results then [results[ids[|ids| - 1]]] else [])
  }

  // ---- the run ----

  datatype Policy = NoRollback | BestEffort | Strict | OnFailure | Always

  predicate RunsOnFailure(p: Policy) {
    p != NoRollback
  }

  datatype TaskResult =
    | TaskCompleted(aggregated: Json, compensation: Option<SagaResult>)
    | TaskFailed(code: string, compensation: Option<SagaResult>)
    | TaskThrew

  const DEPENDENCY_FAILED := "NOP-SYNC-DEPENDENCY-FAILED"
  const COMPENSATION_FAILED := "NOP-COMPENSATION-FAILED"
  const COMPENSATION_NOT_SUPPORTED := "NOP-COMPENSATION-NOT-SUPPORTED"

  function FailureCode(policy: Policy, compensation: Option<SagaResult>): string {
    if policy != Strict || compensation.None? || compensation.value.failed == 0 then DEPENDENCY_FAILED
    else if compensation.value.attempted == 0 then COMPENSATION_NOT_SUPPORTED
    else COMPENSATION_FAILED
  }

  /** No completed pass of the run, up to `n`, called for an abort. */
  ghost predicate NeverAborts(dag: TaskDag, run: seq<Moment>, n: nat) {
    forall i :: 0 <= i < n && i < |run| ==>
      run[i].outcome.Fail? ==> !MustAbort(dag, run[i].id, After(run[i]).states)
  }

  ghost predicate AnyEndFailed(dag: TaskDag, states: States) {
    exists e :: e in EndNodes(dag) && HasFailed(states, e)
  }

  /** The run that returns a completed task. */
  ghost predicate CompletedRun(dag: TaskDag, limit: int, run: seq<Moment>, final: Sched) {
    && IsSchedule(dag, limit, run) && NeverAborts(dag, run, |run|)
    && Stops(dag, limit, Reached(run), final)
    && !AnyEndFailed(dag, final.states)
  }

  /** A run that stops with a failed end node. */
  ghost predicate FailedAtExit(dag: TaskDag, limit: int, run: seq<Moment>, final: Sched) {
    && IsSchedule(dag, limit, run) && NeverAborts(dag, run, |run|)
    && Stops(dag, limit, Reached(run), final)
    && AnyEndFailed(dag, final.states)
  }

  /** A run cut short because an end node downstream of the last failure lost its K. */
  ghost predicate AbortedRun(dag: TaskDag, limit: int, run: seq<Moment>, final: Sched) {
    && IsSchedule(dag, limit, run) && run != [] && NeverAborts(dag, run, |run| - 1)
    && final == Reached(run)
    && run[|run| - 1].outcome.Fail? && MustAbort(dag, run[|run| - 1].id, final.states)
  }

  /** What the scheduling loop knows between passes. */
  ghost predicate AtLoopHead(dag: TaskDag, limit: int, run: seq<Moment>, s: Sched) {
    && IsSchedule(dag, limit, run) && NeverAborts(dag, run, |run|)
    && s == Reached(run) && Consistent(dag, limit, s)
  }

  /** What a finished task reports of its rollback, given what was attempted. */
  ghost predicate Compensated(dag: TaskDag, topo: seq<Id>, policy: Policy, states: States, result: TaskResult,
                              undone: seq<Id>) {
    match result
    case TaskThrew => true
    case TaskFailed(code, saga) =>
      && code == FailureCode(policy, saga)
      && (saga.Some? <==> RunsOnFailure(policy))
      && (saga.Some? ==> Reports(dag, topo, policy == Strict, states, saga.value))
      && undone == if saga.Some? then Attempts(dag, topo, policy == Strict, states) else []
    case TaskCompleted(_, saga) =>
      && (saga.Some? <==> policy == Always)
      && (saga.Some? ==> Reports(dag, topo, false, states, saga.value))
      && undone == if saga.Some? then Attempts(dag, topo, false, states) else []
  }

  // ---- settling ----

  /** How the nodes in flight at an abort settled; `None` is a rejected promise. */
  type Settlement = map<Id, Option<Outcome>>

  /** `_settleInFlight`: wait for every node in flight, whatever becomes of it. No outcome is
      recorded. */
  method SettleInFlight(inFlight: set<Id>) returns (settled: Settlement)
    ensures settled.Keys == inFlight
  {
    settled := map[];
    var pending := inFlight;
    while pending != {}
      invariant pending <= inFlight && settled.Keys == inFlight - pending
      decreases pending
    {
      var id :| id in pending;
      var outcome: Option<Outcome> := *;
      pending := pending - {id};
      settled := settled[id := outcome];
    }
  }

  ghost predicate CompletedWhileSettling(settled: Settlement, id: Id) {
    id in settled && settled[id].Some? && settled[id].value.Done?
  }

  /** A node that completes while an aborted task settles is never rolled back. */
  lemma SettledNotRolledBack(dag: TaskDag, topo: seq<Id>, limit: int, run: seq<Moment>, final: Sched,
                             settled: Settlement, id: Id)
    requires Validated(dag, topo) && AbortedRun(dag, limit, run, final) && settled.Keys == final.inFlight
    requires CompletedWhileSettling(settled, id)
    ensures id !in SagaPlan(dag, topo, final.states)
  {
    ReachedConsistent(dag, limit, run);
    SagaPlanBackward(dag, topo, final.states);
  }

  /** An aborted run that cuts node `id` short. */
  ghost predicate CutsShort(dag: TaskDag, topo: seq<Id>, limit: int, run: seq<Moment>, final: Sched, id: Id) {
    Validated(dag, topo) && AbortedRun(dag, limit, run, final) && id in final.inFlight
  }

  /** With one slot nothing is in flight beside the node whose failure aborts the run. */
  lemma OneSlotCutsNothingShort(dag: TaskDag, topo: seq<Id>, limit: int, run: seq<Moment>, final: Sched, id: Id)
    requires CutsShort(dag, topo, limit, run, final, id)
    ensures limit >= 2
  {
    var m := run[|run| - 1];
    ScheduleConsistent(dag, limit, run, |run| - 1);
    assert IsMoment(dag, limit, m);
    TwoInFlight(NodeIds(dag), limit, m.ready, m.id, id);
  }

  lemma TwoInFlight(ids: set<Id>, limit: int, s: Sched, a: Id, b: Id)
    requires Bookkeeping(ids, limit, s) && a in s.inFlight && b in s.inFlight - {a}
    ensures limit >= 2
  {
    SubsetSize({a, b}, s.inFlight);
  }

  /** `worker` is what each node would come to; which node in flight finishes next is free. In a
      `quiet` run no abort arrives and nothing throws. */
  method RunDag(dag: TaskDag, topo: seq<Id>, limit: int, policy: Policy, strategy: Strategy,
                worker: Id -> Outcome, quiet: bool)
      returns (result: TaskResult, final: Sched, ghost run: seq<Moment>, ghost undone: seq<Id>,
               ghost settled: Settlement)
    requires Validated(dag, topo)
    ensures IsSchedule(dag, limit, run)
    ensures result.TaskCompleted? ==> CompletedRun(dag, limit, run, final)
    ensures result.TaskCompleted? ==>
              result.aggregated == Aggregate(strategy, ResultsOf(EndNodes(dag), final.results))
    ensures result.TaskFailed? ==>
              || (FailedAtExit(dag, limit, run, final) && settled == map[])
              || (AbortedRun(dag, limit, run, final) && settled.Keys == final.inFlight)
    ensures Compensated(dag, topo, policy, final.states, result, undone)
    ensures Reported(run, worker)
    ensures quiet ==> !result.TaskThrew?
    ensures quiet && limit >= 1 && LeastClosed(dag, NodeIds(dag)) && NobodyFails(worker) ==>
              result.TaskCompleted? && final.states.Keys == NodeIds(dag)
    ensures Clean(limit, final) && !result.TaskThrew? ==>
              && result.TaskCompleted? && LeastClosed(dag, final.states.Keys)
              && (InputsAreEdges(dag) ==> final.states.Keys == NodeIds(dag))
  {
    var cut;
    cut, final, run, undone, settled := RunLoop(dag, topo, limit, policy, worker, quiet);
    if cut.Some? {
      result := cut.value;
    } else {
      result, undone := Finish(dag, topo, policy, strategy, final, quiet);
    }
    CleanResult(dag, topo, limit, run, final);
    ResolvableResult(dag, limit, run, final, worker);
  }

  /** Every completed pass of the run reports what the worker came to. */
  ghost predicate Reported(run: seq<Moment>, worker: Id -> Outcome) {
    forall m :: m in run ==> m.outcome == worker(m.id)
  }

  ghost predicate NobodyFails(worker: Id -> Outcome) {
    forall id :: !worker(id).Fail?
  }

  /** Where everything can be resolved and no worker fails, no run is cut short or reported failed,
      and a completed one has resolved every node. */
  lemma ResolvableResult(dag: TaskDag, limit: int, run: seq<Moment>, final: Sched, worker: Id -> Outcome)
    requires DistinctIds(dag)
    ensures limit >= 1 && LeastClosed(dag, NodeIds(dag)) && NobodyFails(worker) && Reported(run, worker) ==>
              && !FailedAtExit(dag, limit, run, final) && !AbortedRun(dag, limit, run, final)
              && (CompletedRun(dag, limit, run, final) ==> final.states.Keys == NodeIds(dag))
  {
    if limit >= 1 && LeastClosed(dag, NodeIds(dag)) && NobodyFails(worker) && Reported(run, worker)
       && IsSchedule(dag, limit, run) && Stops(dag, limit, Reached(run), final) {
      ResolvableRunCompletes(dag, limit, run, final);
    }
  }

  /** Where no node failed, no run is reported failed and none stops early. */
  lemma CleanResult(dag: TaskDag, topo: seq<Id>, limit: int, run: seq<Moment>, final: Sched)
    requires Validated(dag, topo)
    ensures Clean(limit, final) ==> !FailedAtExit(dag, limit, run, final) && !AbortedRun(dag, limit, run, final)
    ensures Clean(limit, final) && CompletedRun(dag, limit, run, final) ==>
              && LeastClosed(dag, final.states.Keys)
              && (InputsAreEdges(dag) ==> final.states.Keys == NodeIds(dag))
  {
    if Clean(limit, final) && CompletedRun(dag, limit, run, final) {
      CleanRunCompletes(dag, limit, run, final);
      if InputsAreEdges(dag) {
        CleanRunOnEdges(dag, topo, limit, run, final);
      }
    }
    if AbortedRun(dag, limit, run, final) {
      var m := run[|run| - 1];
      assert m.id in final.states && final.states[m.id] == Failed;
    }
  }

  ghost predicate Clean(limit: int, final: Sched) {
    limit >= 1 && forall d :: d in final.states ==> final.states[d] != Failed
  }

  /** The loop itself; `None` says that it stopped without an abort. */
  method RunLoop(dag: TaskDag, topo: seq<Id>, limit: int, policy: Policy, worker: Id -> Outcome, quiet: bool)
      returns (cut: Option<TaskResult>, final: Sched, ghost run: seq<Moment>, ghost undone: seq<Id>,
               ghost settled: Settlement)
    requires Validated(dag, topo)
    ensures IsSchedule(dag, limit, run) && Reported(run, worker)
    ensures cut.None? ==> NeverAborts(dag, run, |run|) && Stops(dag, limit, Reached(run), final) && settled == map[]
    ensures cut.Some? ==> !cut.value.TaskCompleted?
    ensures quiet && cut.Some? ==> cut.value.TaskFailed?
    ensures cut.Some? && cut.value.TaskFailed? ==> AbortedRun(dag, limit, run, final) && settled.Keys == final.inFlight
    ensures cut.Some? ==> Compensated(dag, topo, policy, final.states, cut.value, undone)
  {
    final := INITIAL;
    run := [];
    while |final.states| < |dag.nodes|
      invariant AtLoopHead(dag, limit, run, final) && Reported(run, worker)
      decreases |dag.nodes| - |final.states|
    {
      var signalAborted: bool := *;
      if signalAborted && !quiet {
        return Some(TaskThrew), final, run, [], map[];
      }
      var before := final;
      final := PreparePass(dag, limit, before);
      if final.inFlight == {} {
        return None, final, run, [], map[];
      }
      var threw: bool := *;
      if threw && !quiet {
        return Some(TaskThrew), final, run, [], map[];
      }
      var nodeId :| nodeId in final.inFlight;
      var outcome := worker(nodeId);
      PassExtends(dag, limit, run, before, nodeId, outcome);
      AfterPass(dag, limit, run, Moment(before, final, nodeId, outcome));
      ReportedNext(run, worker, Moment(before, final, nodeId, outcome));
      run := run + [Moment(before, final, nodeId, outcome)];
      final := Complete(final, nodeId, outcome);
      cut, undone, settled := AbortIfHopeless(dag, topo, policy, nodeId, outcome, final, quiet);
      if cut.Some? {
        return cut, final, run, undone, settled;
      }
    }
    return None, final, run, [], map[];
  }

  /** After a failure: give up once an end node can no longer succeed, let what is in flight
      settle, and roll back by the states recorded before it did. */
  method AbortIfHopeless(dag: TaskDag, topo: seq<Id>, policy: Policy, id: Id, outcome: Outcome, s: Sched, quiet: bool)
      returns (cut: Option<TaskResult>, ghost undone: seq<Id>, ghost settled: Settlement)
    ensures cut.Some? <==> outcome.Fail? && MustAbort(dag, id, s.states)
    ensures cut.Some? ==> !cut.value.TaskCompleted? && Compensated(dag, topo, policy, s.states, cut.value, undone)
    ensures settled.Keys == if cut.Some? then s.inFlight else {}
    ensures quiet && cut.Some? ==> cut.value.TaskFailed?
  {
    if outcome.Fail? {
      var mustAbort := CheckAbort(dag, id, s.states);
      if mustAbort {
        settled := SettleInFlight(s.inFlight);
        var failure;
        failure, undone := FailTask(dag, topo, policy, s.states, quiet);
        return Some(failure), undone, settled;
      }
    }
    return None, [], map[];
  }

  lemma RunExtends(dag: TaskDag, limit: int, run: seq<Moment>, m: Moment)
    requires IsSchedule(dag, limit, run) && IsMoment(dag, limit, m) && m.before == Reached(run)
    ensures IsSchedule(dag, limit, run + [m]) && Reached(run + [m]) == After(m)
  {
    var longer := run + [m];
    forall i | 0 <= i < |longer| ensures IsMoment(dag, limit, longer[i]) {
      assert longer[i] == if i < |run| then run[i] else m;
    }
    ChainExtends(run, m);
  }

  lemma ChainExtends(run: seq<Moment>, m: Moment)
    requires m.before == Reached(run)
    requires forall i :: 0 < i < |run| ==> run[i].before == After(run[i - 1])
    ensures forall i :: 0 < i < |run + [m]| ==> (run + [m])[i].before == After((run + [m])[i - 1])
  {
  }

  /** One completed pass: it extends the schedule, stays consistent and resolves a node. */
  lemma PassExtends(dag: TaskDag, limit: int, run: seq<Moment>, before: Sched, id: Id, outcome: Outcome)
    requires DistinctIds(dag) && IsSchedule(dag, limit, run)
    requires before == Reached(run) && Consistent(dag, limit, before)
    requires |before.states| < |dag.nodes| && id in Prepare(dag, limit, before).inFlight
    ensures var m := Moment(before, Prepare(dag, limit, before), id, outcome);
            && IsSchedule(dag, limit, run + [m]) && Reached(run + [m]) == After(m)
            && Consistent(dag, limit, After(m))
            && |before.states| < |After(m).states|
  {
    var ready := Prepare(dag, limit, before);
    var m := Moment(before, ready, id, outcome);
    PrepareConsistent(dag, limit, before);
    CompleteConsistent(dag, limit, ready, id, outcome);
    assert before.states.Keys <= ready.states.Keys;
    SubsetSize(before.states.Keys, ready.states.Keys);
    RunExtends(dag, limit, run, m);
  }

  lemma ReportedNext(run: seq<Moment>, worker: Id -> Outcome, m: Moment)
    requires Reported(run, worker) && m.outcome == worker(m.id)
    ensures Reported(run + [m], worker)
  {
  }

  /** After a completed pass the run is aborted or the loop goes on. */
  lemma AfterPass(dag: TaskDag, limit: int, run: seq<Moment>, m: Moment)
    requires NeverAborts(dag, run, |run|)
    requires IsSchedule(dag, limit, run + [m]) && Consistent(dag, limit, After(m))
    ensures m.outcome.Fail? && MustAbort(dag, m.id, After(m).states) ==> AbortedRun(dag, limit, run + [m], After(m))
    ensures !(m.outcome.Fail? && MustAbort(dag, m.id, After(m).states)) ==> AtLoopHead(dag, limit, run + [m], After(m))
  {
    var longer := run + [m];
    forall i | 0 <= i < |run| && longer[i].outcome.Fail?
      ensures !MustAbort(dag, longer[i].id, After(longer[i]).states)
    {
      assert longer[i] == run[i];
    }
  }

  /** One pass up to the race: collect the ready nodes, mark, launch. */
  method PreparePass(dag: TaskDag, limit: int, s: Sched) returns (p: Sched)
    ensures p == Prepare(dag, limit, s)
  {
    var ready := CollectReady(dag.nodes, s);
    var marked := MarkInfeasible(ready, s.states);
    var inFlight := LaunchReady(marked.ready, s.inFlight, limit);
    p := Sched(marked.states, s.results, inFlight, s.launched + inFlight);
  }

  method CollectReady(nodes: seq<DagNode>, s: Sched) returns (ready: seq<DagNode>)
    ensures ready == ReadyNodes(nodes, s)
  {
    ready := [];
    for i := 0 to |nodes|
      invariant ready == ReadyNodes(nodes[..i], s)
    {
      var n := nodes[i];
      assert nodes[..i + 1][..i] == nodes[..i];
      if n.id !in s.states && n.id !in s.inFlight && DepsDone(n, s.states) {
        ready := ready + [n];
      }
    }
    assert nodes[..|nodes|] == nodes;
  }

  method MarkInfeasible(ready: seq<DagNode>, states0: States) returns (m: Marked)
    ensures m == Mark(ready, states0)
  {
    var states := states0;
    var kept: seq<DagNode> := [];
    for i := 0 to |ready|
      invariant Marked(states, kept) == Mark(ready[..i], states0)
    {
      assert ready[..i + 1][..i] == ready[..i];
      if Infeasible(ready[i], states) {
        states := states[ready[i].id := Failed];
      } else {
        kept := kept + [ready[i]];
      }
    }
    assert ready[..|ready|] == ready;
    return Marked(states, kept);
  }

  method LaunchReady(ready: seq<DagNode>, inFlight0: set<Id>, limit: int) returns (inFlight: set<Id>)
    ensures inFlight == Launch(ready, inFlight0, limit)
  {
    inFlight := inFlight0;
    var i := 0;
    while i < |ready| && |inFlight| < limit
      invariant 0 <= i <= |ready|
      invariant inFlight == Launch(ready[..i], inFlight0, limit)
    {
      assert ready[..i + 1][..i] == ready[..i];
      inFlight := inFlight + {ready[i].id};
      i := i + 1;
    }
    LaunchStops(ready, inFlight0, limit, i);
  }

  /** Once the limit is reached the rest of the list launches nothing. */
  lemma {:induction false} LaunchStops(ready: seq<DagNode>, inFlight: set<Id>, limit: int, i: nat)
    requires i <= |ready|
    requires i == |ready| || |Launch(ready[..i], inFlight, limit)| >= limit
    ensures Launch(ready, inFlight, limit) == Launch(ready[..i], inFlight, limit)
    decreases |ready| - i
  {
    if i == |ready| {
      assert ready[..i] == ready;
    } else {
      assert ready[..i + 1][..i] == ready[..i];
      LaunchStops(ready, inFlight, limit, i + 1);
    }
  }

  method CheckAbort(dag: TaskDag, failed: Id, states: States) returns (r: bool)
    ensures r <==> MustAbort(dag, failed, states)
  {
    var ends := EndNodes(dag);
    for i := 0 to |ends|
      invariant forall e :: e in ends[..i] ==> !Hopeless(dag, failed, e, states)
    {
      var e := ends[i];
      assert e in ends;
      assert e in IdsOf(dag.nodes);
      var reach := CanReachEndNode(dag.edges, e, failed);
      if reach && !CanStillSucceed(NodeOf(dag, e), states) {
        return true;
      }
    }
    assert ends[..|ends|] == ends;
    return false;
  }

  method FailTask(dag: TaskDag, topo: seq<Id>, policy: Policy, states: States, quiet: bool)
      returns (result: TaskResult, ghost undone: seq<Id>)
    ensures !result.TaskCompleted?
    ensures quiet ==> result.TaskFailed?
    ensures Compensated(dag, topo, policy, states, result, undone)
  {
    undone := [];
    var compensation: Option<SagaResult> := None;
    if RunsOnFailure(policy) {
      compensation, undone := RunSagaCompensation(dag, topo, policy == Strict, states, quiet);
      if compensation.None? {
        return TaskThrew, undone;
      }
    }
    return TaskFailed(FailureCode(policy, compensation), compensation), undone;
  }

  method Finish(dag: TaskDag, topo: seq<Id>, policy: Policy, strategy: Strategy, final: Sched, quiet: bool)
      returns (result: TaskResult, ghost undone: seq<Id>)
    ensures result.TaskCompleted? ==> !AnyEndFailed(dag, final.states)
    ensures result.TaskCompleted? ==>
              result.aggregated == Aggregate(strategy, ResultsOf(EndNodes(dag), final.results))
    ensures result.TaskFailed? ==> AnyEndFailed(dag, final.states)
    ensures quiet ==> !result.TaskThrew?
    ensures Compensated(dag, topo, policy, final.states, result, undone)
  {
    undone := [];
    var ends := EndNodes(dag);
    if exists e :: e in ends && HasFailed(final.states, e) {
      result, undone := FailTask(dag, topo, policy, final.states, quiet);
      return;
    }
    var endResults: seq<Json> := [];
    for i := 0 to |ends|
      invariant endResults == ResultsOf(ends[..i], final.results)
    {
      assert ends[..i + 1][..i] == ends[..i];
      if ends[i] in final.results {
        endResults := endResults + [final.results[ends[i]]];
      }
    }
    assert ends[..|ends|] == ends;
    var compensation: Option<SagaResult> := None;
    if policy == Always {
      compensation, undone := RunSagaCompensation(dag, topo, false, final.states, quiet);
      if compensation.None? {
        return TaskThrew, undone;
      }
    }
    return TaskCompleted(Aggregate(strategy, endResults), compensation), undone;
  }
}
