/** The ready-node scheduler of the orchestrator as a transition system: one moment is one
    pass of its main loop, whose outcome is whichever in-flight node happens to finish. */
module Scheduler {
  import opened Common
  import opened Ids
  import opened Graph
  import opened TaskModels
  import opened Json

  datatype NodeState = Completed | Failed | Skipped

  datatype Outcome = Done(result: Json) | Skip | Fail

  type States = map<Id, NodeState>

  /** `launched` is history: every node that was ever put in flight. */
  datatype Sched = Sched(states: States, results: map<Id, Json>, inFlight: set<Id>, launched: set<Id>)

  const INITIAL := Sched(map[], map[], {}, {})

  // ---- K-of-N ----

  predicate Succeeded(states: States, d: Id) {
    d in states && states[d] != Failed
  }

  predicate HasFailed(states: States, d: Id) {
    d in states && states[d] == Failed
  }

  function Successes(inputs: seq<Id>, states: States): nat {
    |Filter(inputs, d => Succeeded(states, d))|
  }

  function Failures(inputs: seq<Id>, states: States): nat {
    |Filter(inputs, d => HasFailed(states, d))|
  }

  /** How many inputs must succeed; nodes without inputs wait for nothing. */
  function Required(n: DagNode): int {
    if n.minRequired > 0 then n.minRequired else |n.inputFrom|
  }

  predicate DepsDone(n: DagNode, states: States) {
    n.inputFrom == [] ||
    Successes(n.inputFrom, states) >= Required(n) ||
    |n.inputFrom| - Failures(n.inputFrom, states) < Required(n)
  }

  predicate Infeasible(n: DagNode, states: States) {
    n.inputFrom != [] && Successes(n.inputFrom, states) < Required(n)
  }

  predicate EnoughInputs(n: DagNode, states: States) {
    n.inputFrom == [] || Successes(n.inputFrom, states) >= Required(n)
  }

  ghost predicate Extends(states: States, states': States) {
    forall d :: d in states ==> d in states' && states'[d] == states[d]
  }

  lemma {:induction false} TalliesGrow(inputs: seq<Id>, states: States, states': States)
    requires Extends(states, states')
    ensures Successes(inputs, states) <= Successes(inputs, states')
    ensures Failures(inputs, states) <= Failures(inputs, states')
  {
    if inputs != [] {
      var front := inputs[..|inputs| - 1];
      TalliesGrow(front, states, states');
      TallyStep(inputs, states);
      TallyStep(inputs, states');
    }
  }

  lemma TallyStep(inputs: seq<Id>, states: States)
    requires inputs != []
    ensures var front, last := inputs[..|inputs| - 1], inputs[|inputs| - 1];
            && Successes(inputs, states) == Successes(front, states) + (if Succeeded(states, last) then 1 else 0)
            && Failures(inputs, states) == Failures(front, states) + (if HasFailed(states, last) then 1 else 0)
  {
    var front := inputs[..|inputs| - 1];
    SameFilter(front, d => Succeeded(states, d), d => Succeeded(states, d));
    SameFilter(front, d => HasFailed(states, d), d => HasFailed(states, d));
  }

  /** Each listed input counts at most once; all of them count when all are resolved. */
  lemma {:induction false} TallyBound(inputs: seq<Id>, states: States)
    ensures Successes(inputs, states) + Failures(inputs, states) <= |inputs|
    ensures (forall d :: d in inputs ==> d in states) ==>
              Successes(inputs, states) + Failures(inputs, states) == |inputs|
  {
    if inputs != [] {
      assert inputs == inputs[..|inputs| - 1] + [inputs[|inputs| - 1]];
      TallyBound(inputs[..|inputs| - 1], states);
      TallyStep(inputs, states);
    }
  }

  // ---- one pass ----

  function ReadyNodes(nodes: seq<DagNode>, s: Sched): (r: seq<DagNode>)
    ensures forall n :: n in r <==> n in nodes && n.id !in s.states && n.id !in s.inFlight && DepsDone(n, s.states)
  {
    if nodes == [] then []
    else
      var n := nodes[|nodes| - 1];
      assert nodes == nodes[..|nodes| - 1] + [n];
      ReadyNodes(nodes[..|nodes| - 1], s) +
      (if n.id !in s.states && n.id !in s.inFlight && DepsDone(n, s.states) then [n] else [])
  }

  datatype Marked = Marked(states: States, ready: seq<DagNode>)

  /** Fail the ready nodes whose K cannot be met, each judged after the ones before it. */
  function Mark(ready: seq<DagNode>, states: States): Marked {
    if ready == [] then Marked(states, [])
    else
      var before := Mark(ready[..|ready| - 1], states);
      var n := ready[|ready| - 1];
      if Infeasible(n, before.states) then before.(states := before.states[n.id := Failed])
      else before.(ready := before.ready + [n])
  }

  /** Launch in order until the concurrency limit is reached. */
  function Launch(ready: seq<DagNode>, inFlight: set<Id>, limit: int): set<Id> {
    if ready == [] then inFlight
    else
      var before := Launch(ready[..|ready| - 1], inFlight, limit);
      if |before| >= limit then before else before + {ready[|ready| - 1].id}
  }

  /** The deterministic half of a pass: mark, then launch. */
  function Prepare(dag: TaskDag, limit: int, s: Sched): Sched {
    var marked := Mark(ReadyNodes(dag.nodes, s), s.states);
    var inFlight := Launch(marked.ready, s.inFlight, limit);
    Sched(marked.states, s.results, inFlight, s.launched + inFlight)
  }

  function StateOf(outcome: Outcome): NodeState {
    match outcome
    case Done(_) => Completed
    case Skip => Skipped
    case Fail => Failed
  }

  function Complete(s: Sched, id: Id, outcome: Outcome): Sched {
    Sched(s.states[id := StateOf(outcome)],
          if outcome.Done? then s.results[id := outcome.result] else s.results,
          s.inFlight - {id}, s.launched)
  }

  // ---- runs ----

  datatype Moment = Moment(before: Sched, ready: Sched, id: Id, outcome: Outcome)

  function After(m: Moment): Sched {
    Complete(m.ready, m.id, m.outcome)
  }

  ghost predicate IsMoment(dag: TaskDag, limit: int, m: Moment) {
    && |m.before.states| < |dag.nodes|
    && m.ready == Prepare(dag, limit, m.before)
    && m.id in m.ready.inFlight
  }

  /** Any schedule of completions: every pass starts where the previous one ended. */
  ghost predicate IsSchedule(dag: TaskDag, limit: int, run: seq<Moment>) {
    && (forall i :: 0 <= i < |run| ==> IsMoment(dag, limit, run[i]))
    && (run != [] ==> run[0].before == INITIAL)
    && (forall i :: 0 < i < |run| ==> run[i].before == After(run[i - 1]))
  }

  function Reached(run: seq<Moment>): Sched {
    if run == [] then INITIAL else After(run[|run| - 1])
  }

  // ---- invariants of every schedule ----

  ghost predicate Consistent(dag: TaskDag, limit: int, s: Sched) {
    Bookkeeping(NodeIds(dag), limit, s) && Justified(dag, s)
  }

  /** Every launched node has its K inputs, and they stay succeeded. */
  ghost predicate Justified(dag: TaskDag, s: Sched) {
    forall n :: n in dag.nodes && n.id in s.launched ==> EnoughInputs(n, s.states)
  }

  ghost predicate Bookkeeping(ids: set<Id>, limit: int, s: Sched) {
    && s.states.Keys <= ids && s.launched <= ids
    && s.inFlight <= s.launched
    && s.states.Keys !! s.inFlight
    && s.launched - s.inFlight <= s.states.Keys
    && |s.inFlight| <= (if limit > 0 then limit else 0)
    && (forall d :: d in s.results <==> d in s.states && s.states[d] == Completed)
    && (forall d :: d in s.states && d !in s.launched ==> s.states[d] == Failed)
  }

  ghost predicate DistinctIds(dag: TaskDag) {
    Distinct(IdsOf(dag.nodes))
  }

  lemma SameNode(dag: TaskDag, m: DagNode, n: DagNode)
    requires DistinctIds(dag) && m in dag.nodes && n in dag.nodes && m.id == n.id
    ensures m == n
  {
    var i :| 0 <= i < |dag.nodes| && dag.nodes[i] == m;
    var j :| 0 <= j < |dag.nodes| && dag.nodes[j] == n;
    assert IdsOf(dag.nodes)[i] == IdsOf(dag.nodes)[j];
  }

  lemma NodeKnown(dag: TaskDag, n: DagNode)
    requires n in dag.nodes
    ensures n.id in NodeIds(dag)
  {
    var i :| 0 <= i < |dag.nodes| && dag.nodes[i] == n;
    assert IdsOf(dag.nodes)[i] == n.id;
  }

  /** Marking only adds failures of ready nodes that have inputs; what stays ready has its K. */
  lemma {:induction false} MarkShape(ready: seq<DagNode>, states: States)
    requires forall n :: n in ready ==> n.id !in states
    ensures var m := Mark(ready, states);
            && Extends(states, m.states)
            && (forall n :: n in m.ready ==> n in ready && EnoughInputs(n, m.states))
            && (forall d :: d in m.states && d !in states ==>
                  m.states[d] == Failed && exists n :: n in ready && n.id == d && n.inputFrom != [])
            && (forall n :: n in ready ==> n in m.ready || n.id in m.states)
  {
    if ready != [] {
      var front := ready[..|ready| - 1];
      var n := ready[|ready| - 1];
      assert ready == front + [n];
      MarkShape(front, states);
      var before := Mark(front, states);
      var m := Mark(ready, states);
      forall k | k in m.ready ensures EnoughInputs(k, m.states) {
        if Infeasible(n, before.states) {
          assert Tolerates(before.states, m.states);
          FailedKeepsSuccesses(k.inputFrom, before.states, m.states);
        }
      }
    }
  }

  /** `states'` differs from `states` only in entries that are failed in `states'` and were
      not successes before. */
  ghost predicate Tolerates(states: States, states': States) {
    forall d :: Succeeded(states, d) ==> Succeeded(states', d)
  }

  lemma {:induction false} FailedKeepsSuccesses(inputs: seq<Id>, states: States, states': States)
    requires Tolerates(states, states')
    ensures Successes(inputs, states) <= Successes(inputs, states')
  {
    if inputs != [] {
      FailedKeepsSuccesses(inputs[..|inputs| - 1], states, states');
      TallyStep(inputs, states);
      TallyStep(inputs, states');
    }
  }

  lemma {:induction false} LaunchShape(ready: seq<DagNode>, inFlight: set<Id>, limit: int)
    ensures var r := Launch(ready, inFlight, limit);
            && inFlight <= r
            && (forall d :: d in r - inFlight ==> exists n :: n in ready && n.id == d)
            && (|r| <= |inFlight| || |r| <= limit)
            && (ready != [] && limit >= 1 ==> r != {})
  {
    if ready != [] {
      var front := ready[..|ready| - 1];
      var last := ready[|ready| - 1];
      assert ready == front + [last];
      LaunchShape(front, inFlight, limit);
      forall d | d in Launch(ready, inFlight, limit) - inFlight ensures exists n :: n in ready && n.id == d {
        if d == last.id {
          assert last in ready;
        } else {
          assert d in Launch(front, inFlight, limit) - inFlight;
          var n :| n in front && n.id == d;
          assert n in ready;
        }
      }
    }
  }

  lemma PrepareConsistent(dag: TaskDag, limit: int, s: Sched)
    requires DistinctIds(dag) && Consistent(dag, limit, s)
    ensures Consistent(dag, limit, Prepare(dag, limit, s))
    ensures Extends(s.states, Prepare(dag, limit, s).states)
    ensures forall d :: d in Prepare(dag, limit, s).inFlight - s.inFlight ==> d !in s.launched
  {
    PrepareBookkeeping(dag, limit, s);
    PrepareJustified(dag, limit, s);
  }

  lemma PrepareBookkeeping(dag: TaskDag, limit: int, s: Sched)
    requires DistinctIds(dag) && Consistent(dag, limit, s)
    ensures Bookkeeping(NodeIds(dag), limit, Prepare(dag, limit, s))
    ensures Extends(s.states, Prepare(dag, limit, s).states)
    ensures forall d :: d in Prepare(dag, limit, s).inFlight - s.inFlight ==> d !in s.launched
  {
    var p := Prepare(dag, limit, s);
    PrepareGrows(dag, limit, s);
    forall d | d in p.inFlight && d !in s.inFlight
      ensures d in NodeIds(dag) && d !in p.states && d !in s.launched
    {
      var n := NewlyInFlight(dag, limit, s, d);
    }
    forall d | d in p.states && d !in s.states
      ensures d in NodeIds(dag) && d !in p.inFlight && d !in p.launched && p.states[d] == Failed
    {
      NewlyMarked(dag, limit, s, d);
    }
    BookkeepingGrows(NodeIds(dag), limit, s, p);
  }

  lemma BookkeepingGrows(ids: set<Id>, limit: int, s: Sched, p: Sched)
    requires Bookkeeping(ids, limit, s)
    requires Extends(s.states, p.states) && s.inFlight <= p.inFlight
    requires p.results == s.results && p.launched == s.launched + p.inFlight
    requires |p.inFlight| <= |s.inFlight| || |p.inFlight| <= limit
    requires forall d :: d in p.inFlight && d !in s.inFlight ==> d in ids && d !in p.states
    requires forall d :: d in p.states && d !in s.states ==>
               d in ids && d !in p.inFlight && d !in p.launched && p.states[d] == Failed
    ensures Bookkeeping(ids, limit, p)
  {
    assert p.states.Keys !! p.inFlight;
  }

  lemma PrepareJustified(dag: TaskDag, limit: int, s: Sched)
    requires DistinctIds(dag) && Consistent(dag, limit, s)
    ensures Justified(dag, Prepare(dag, limit, s))
  {
    var p := Prepare(dag, limit, s);
    PrepareGrows(dag, limit, s);
    forall n | n in dag.nodes && n.id in p.launched ensures EnoughInputs(n, p.states) {
      if n.id in s.launched {
        TalliesGrow(n.inputFrom, s.states, p.states);
      } else {
        var n' := NewlyInFlight(dag, limit, s, n.id);
        SameNode(dag, n, n');
      }
    }
  }

  lemma PrepareGrows(dag: TaskDag, limit: int, s: Sched)
    ensures var p := Prepare(dag, limit, s);
            && Extends(s.states, p.states) && s.inFlight <= p.inFlight
            && (|p.inFlight| <= |s.inFlight| || |p.inFlight| <= limit)
  {
    MarkShape(ReadyNodes(dag.nodes, s), s.states);
    LaunchShape(Mark(ReadyNodes(dag.nodes, s), s.states).ready, s.inFlight, limit);
  }

  /** What a pass launches was ready and kept, and has its inputs. */
  lemma NewlyInFlight(dag: TaskDag, limit: int, s: Sched, d: Id) returns (n: DagNode)
    requires DistinctIds(dag) && Consistent(dag, limit, s)
    requires d in Prepare(dag, limit, s).inFlight && d !in s.inFlight
    ensures n in dag.nodes && n.id == d && EnoughInputs(n, Prepare(dag, limit, s).states)
    ensures d in NodeIds(dag) && d !in Prepare(dag, limit, s).states && d !in s.launched
  {
    n := LaunchedWasKept(Mark(ReadyNodes(dag.nodes, s), s.states).ready, s.inFlight, limit, d);
    MarkShape(ReadyNodes(dag.nodes, s), s.states);
    KeptUnmarked(dag, s, n);
    NodeKnown(dag, n);
  }

  lemma LaunchedWasKept(ready: seq<DagNode>, inFlight: set<Id>, limit: int, d: Id) returns (n: DagNode)
    requires d in Launch(ready, inFlight, limit) && d !in inFlight
    ensures n in ready && n.id == d
  {
    LaunchShape(ready, inFlight, limit);
    assert d in Launch(ready, inFlight, limit) - inFlight;
    n :| n in ready && n.id == d;
  }

  /** What a pass marks was ready, and is neither in flight nor launched. */
  lemma NewlyMarked(dag: TaskDag, limit: int, s: Sched, d: Id)
    requires DistinctIds(dag) && Consistent(dag, limit, s)
    requires d in Prepare(dag, limit, s).states && d !in s.states
    ensures d in NodeIds(dag) && d !in Prepare(dag, limit, s).inFlight && d !in Prepare(dag, limit, s).launched
    ensures Prepare(dag, limit, s).states[d] == Failed
  {
    var ready := ReadyNodes(dag.nodes, s);
    MarkShape(ready, s.states);
    var n :| n in ready && n.id == d && n.inputFrom != [];
    NodeKnown(dag, n);
    if d in Prepare(dag, limit, s).inFlight {
      var n' := NewlyInFlight(dag, limit, s, d);
    }
  }

  /** A node still ready after marking was not itself marked. */
  lemma KeptUnmarked(dag: TaskDag, s: Sched, n: DagNode)
    requires DistinctIds(dag)
    requires n in Mark(ReadyNodes(dag.nodes, s), s.states).ready
    ensures n in ReadyNodes(dag.nodes, s)
    ensures n.id !in Mark(ReadyNodes(dag.nodes, s), s.states).states
  {
    var ready := ReadyNodes(dag.nodes, s);
    MarkShape(ready, s.states);
    ReadyDistinct(dag.nodes, s);
    KeptOrMarked(ready, s.states, n);
  }

  lemma {:induction false} ReadyDistinct(nodes: seq<DagNode>, s: Sched)
    requires Distinct(IdsOf(nodes))
    ensures Distinct(IdsOf(ReadyNodes(nodes, s)))
  {
    if nodes != [] {
      var k := |nodes| - 1;
      var front := nodes[..k];
      assert IdsOf(front) == IdsOf(nodes)[..k];
      ReadyDistinct(front, s);
      var r := ReadyNodes(front, s);
      forall i | 0 <= i < |r| ensures r[i].id != nodes[k].id {
        assert r[i] in front;
        var j :| 0 <= j < k && front[j] == r[i];
        assert IdsOf(nodes)[j] != IdsOf(nodes)[k];
      }
    }
  }

  lemma {:induction false} KeptOrMarked(ready: seq<DagNode>, states: States, n: DagNode)
    requires Distinct(IdsOf(ready)) && (forall m :: m in ready ==> m.id !in states)
    requires n in Mark(ready, states).ready
    ensures n.id !in Mark(ready, states).states
  {
    if ready != [] {
      var k := |ready| - 1;
      var front := ready[..k];
      var last := ready[k];
      assert ready == front + [last];
      assert IdsOf(front) == IdsOf(ready)[..k];
      MarkShape(front, states);
      var before := Mark(front, states);
      forall m | m in front ensures m.id != last.id {
        var j :| 0 <= j < k && front[j] == m;
        assert IdsOf(ready)[j] != IdsOf(ready)[k];
      }
      if n in before.ready {
        KeptOrMarked(front, states, n);
      }
    }
  }

  lemma CompleteConsistent(dag: TaskDag, limit: int, s: Sched, id: Id, outcome: Outcome)
    requires DistinctIds(dag) && Consistent(dag, limit, s) && id in s.inFlight
    ensures Consistent(dag, limit, Complete(s, id, outcome))
    ensures Extends(s.states, Complete(s, id, outcome).states)
    ensures |Complete(s, id, outcome).states| == |s.states| + 1
  {
    var c := Complete(s, id, outcome);
    CompleteBookkeeping(NodeIds(dag), limit, s, id, outcome);
    forall n | n in dag.nodes && n.id in c.launched ensures EnoughInputs(n, c.states) {
      assert EnoughInputs(n, s.states);
      TalliesGrow(n.inputFrom, s.states, c.states);
    }
  }

  lemma CompleteBookkeeping(ids: set<Id>, limit: int, s: Sched, id: Id, outcome: Outcome)
    requires Bookkeeping(ids, limit, s) && id in s.inFlight
    ensures Bookkeeping(ids, limit, Complete(s, id, outcome))
    ensures Extends(s.states, Complete(s, id, outcome).states)
    ensures |Complete(s, id, outcome).states| == |s.states| + 1
    ensures Complete(s, id, outcome).launched == s.launched
  {
    CompleteCounts(s, id, outcome);
  }

  lemma CompleteCounts(s: Sched, id: Id, outcome: Outcome)
    requires id in s.inFlight && id !in s.states
    ensures var c := Complete(s, id, outcome);
            && c.states.Keys == s.states.Keys + {id}
            && Extends(s.states, c.states)
            && |c.states| == |s.states| + 1
            && |c.inFlight| == |s.inFlight| - 1
            && c.launched == s.launched
            && (forall d :: d != id ==> (d in c.states <==> d in s.states))
            && (forall d :: d != id ==> (d in c.results <==> d in s.results))
            && (outcome.Done? ==> id in c.results)
            && (!outcome.Done? ==> c.results == s.results)
  {
    var c := Complete(s, id, outcome);
    assert c.states.Keys == s.states.Keys + {id};
    assert |c.states| == |c.states.Keys|;
    assert |s.states| == |s.states.Keys|;
  }

  /** Every state a schedule passes through is consistent. */
  lemma {:induction false} ScheduleConsistent(dag: TaskDag, limit: int, run: seq<Moment>, i: nat)
    requires DistinctIds(dag) && IsSchedule(dag, limit, run) && i < |run|
    ensures Consistent(dag, limit, run[i].before) && Consistent(dag, limit, run[i].ready)
    ensures Consistent(dag, limit, After(run[i]))
    ensures Extends(run[i].before.states, run[i].ready.states)
    ensures Extends(run[i].ready.states, After(run[i]).states)
  {
    if i > 0 {
      ScheduleConsistent(dag, limit, run, i - 1);
      assert run[i].before == After(run[i - 1]);
    }
    assert IsMoment(dag, limit, run[i]);
    PrepareConsistent(dag, limit, run[i].before);
    CompleteConsistent(dag, limit, run[i].ready, run[i].id, run[i].outcome);
  }

  lemma ReachedConsistent(dag: TaskDag, limit: int, run: seq<Moment>)
    requires DistinctIds(dag) && IsSchedule(dag, limit, run)
    ensures Consistent(dag, limit, Reached(run))
  {
    if run != [] {
      ScheduleConsistent(dag, limit, run, |run| - 1);
    }
  }

  // ---- what holds of every schedule ----

  function Launched(m: Moment): set<Id> {
    m.ready.inFlight - m.before.inFlight
  }

  /** A node is put in flight only with K of its inputs completed or skipped, and the number
      in flight stays within the limit. */
  lemma LaunchedWithInputs(dag: TaskDag, limit: int, run: seq<Moment>, i: nat, n: DagNode)
    requires DistinctIds(dag) && IsSchedule(dag, limit, run) && i < |run|
    requires n in dag.nodes && n.id in Launched(run[i])
    ensures n.inputFrom == [] || Successes(n.inputFrom, run[i].ready.states) >= Required(n)
    ensures n.id !in run[i].ready.states
    ensures |run[i].ready.inFlight| <= limit
  {
    ScheduleConsistent(dag, limit, run, i);
    assert run[i].ready.inFlight != {};
  }

  /** A node is put in flight at most once in a whole run. */
  lemma LaunchedOnce(dag: TaskDag, limit: int, run: seq<Moment>, i: nat, j: nat)
    requires DistinctIds(dag) && IsSchedule(dag, limit, run) && i < j < |run|
    ensures Launched(run[i]) !! Launched(run[j])
  {
    LaunchedStays(dag, limit, run, i, j);
    ScheduleConsistent(dag, limit, run, j);
    assert IsMoment(dag, limit, run[i]) && IsMoment(dag, limit, run[j]);
    PrepareConsistent(dag, limit, run[j].before);
  }

  lemma {:induction false} LaunchedStays(dag: TaskDag, limit: int, run: seq<Moment>, i: nat, j: nat)
    requires DistinctIds(dag) && IsSchedule(dag, limit, run) && i < j < |run|
    ensures run[i].ready.launched <= run[j].before.launched
    ensures Extends(After(run[i]).states, run[j].before.states)
    decreases j - i
  {
    assert run[i + 1].before == After(run[i]);
    assert IsMoment(dag, limit, run[i + 1]);
    if i + 1 < j {
      LaunchedStays(dag, limit, run, i + 1, j);
      MomentExtends(dag, limit, run, i + 1);
    }
  }

  /** A terminal state, once written, is never changed. */
  lemma StateWrittenOnce(dag: TaskDag, limit: int, run: seq<Moment>, i: nat, j: nat, d: Id)
    requires DistinctIds(dag) && IsSchedule(dag, limit, run) && i <= j < |run|
    requires d in run[i].before.states
    ensures d in run[j].before.states && run[j].before.states[d] == run[i].before.states[d]
    ensures d in After(run[j]).states && After(run[j]).states[d] == run[i].before.states[d]
  {
    MomentExtends(dag, limit, run, i);
    MomentExtends(dag, limit, run, j);
    if i < j {
      LaunchedStays(dag, limit, run, i, j);
    }
  }

  lemma MomentExtends(dag: TaskDag, limit: int, run: seq<Moment>, i: nat)
    requires DistinctIds(dag) && IsSchedule(dag, limit, run) && i < |run|
    ensures Extends(run[i].before.states, After(run[i]).states)
  {
    ScheduleConsistent(dag, limit, run, i);
  }

  /** Every pass that completes a node resolves at least one more node. */
  lemma PassMakesProgress(dag: TaskDag, limit: int, run: seq<Moment>, i: nat)
    requires DistinctIds(dag) && IsSchedule(dag, limit, run) && i < |run|
    ensures |run[i].before.states| < |After(run[i]).states| <= |dag.nodes|
  {
    ScheduleConsistent(dag, limit, run, i);
    var m := run[i];
    assert IsMoment(dag, limit, m);
    CompleteConsistent(dag, limit, m.ready, m.id, m.outcome);
    SubsetSize(m.before.states.Keys, m.ready.states.Keys);
    DistinctSize(IdsOf(dag.nodes));
    SubsetSize(After(m).states.Keys, NodeIds(dag));
  }

  /** So no run is longer than the number of nodes. */
  lemma {:induction false} RunIsShort(dag: TaskDag, limit: int, run: seq<Moment>)
    requires DistinctIds(dag) && IsSchedule(dag, limit, run)
    ensures |run| <= |Reached(run).states| <= |dag.nodes|
  {
    if run != [] {
      var front := run[..|run| - 1];
      assert IsSchedule(dag, limit, front);
      RunIsShort(dag, limit, front);
      PassMakesProgress(dag, limit, run, |run| - 1);
      if front != [] {
        assert run[|run| - 1].before == After(run[|run| - 2]);
      }
    }
  }

  // ---- how a run ends ----

  predicate IsEndNode(dag: TaskDag, id: Id) {
    forall e :: e in dag.edges ==> e.from != id
  }

  /** End nodes in node order: those no edge leaves. */
  function EndNodes(dag: TaskDag): seq<Id> {
    Filter(IdsOf(dag.nodes), id => IsEndNode(dag, id))
  }

  /** The loop stops when everything is resolved, or when a pass leaves nothing in flight. */
  ghost predicate Stops(dag: TaskDag, limit: int, last: Sched, final: Sched) {
    if |last.states| >= |dag.nodes| then final == last
    else final == Prepare(dag, limit, last) && final.inFlight == {}
  }

  function NodeOf(dag: TaskDag, id: Id): (n: DagNode)
    requires id in NodeIds(dag)
    ensures n in dag.nodes && n.id == id
  {
    FindNode(dag.nodes, id)
  }

  function FindNode(nodes: seq<DagNode>, id: Id): (n: DagNode)
    requires id in IdsOf(nodes)
    ensures n in nodes && n.id == id
  {
    var k := |nodes| - 1;
    assert forall i :: 0 <= i < k ==> IdsOf(nodes[..k])[i] == IdsOf(nodes)[i];
    if nodes[k].id == id then nodes[k] else FindNode(nodes[..k], id)
  }

  /** Declared inputs follow the edges: the hypothesis that ties what the scheduler follows
      to what the validator checked. */
  ghost predicate InputsAreEdges(dag: TaskDag) {
    forall n, u :: n in dag.nodes && u in n.inputFrom ==> Edge(u, n.id) in dag.edges
  }

  ghost predicate Validated(dag: TaskDag, topo: seq<Id>) {
    && DistinctIds(dag) && Closed(NodeIds(dag), dag.edges)
    && IsTopological(NodeIds(dag), dag.edges, topo)
  }

  // ---- early abort ----

  predicate CanStillSucceed(n: DagNode, states: States) {
    n.inputFrom != [] && |n.inputFrom| - Failures(n.inputFrom, states) >= Required(n)
  }

  /** Some end node downstream of the failed one can no longer reach its K. */
  ghost predicate MustAbort(dag: TaskDag, failed: Id, states: States) {
    exists e :: e in EndNodes(dag) && Hopeless(dag, failed, e, states)
  }

  ghost predicate Hopeless(dag: TaskDag, failed: Id, e: Id, states: States) {
    Reaches(dag.edges, failed, e) && e in NodeIds(dag) && !CanStillSucceed(NodeOf(dag, e), states)
  }

  /** An abort on account of an end node with declared inputs is never premature: in no
      continuation of the schedule, and at no time before, is that node launched. */
  lemma AbortNotPremature(dag: TaskDag, limit: int, run: seq<Moment>, i: nat, j: nat, e: DagNode)
    requires DistinctIds(dag) && IsSchedule(dag, limit, run) && i < |run| && j < |run|
    requires e in dag.nodes && e.inputFrom != []
    requires !CanStillSucceed(e, After(run[i]).states)
    ensures e.id !in run[j].ready.launched
  {
    NeverEnough(e, After(run[i]).states, After(run[i]).states);
    JustifiedThroughout(dag, limit, run, i);
    if j < i {
      LaunchedStays(dag, limit, run, j, i);
      JustifiedThroughout(dag, limit, run, i);
    } else if i < j {
      LaunchedStays(dag, limit, run, i, j);
      JustifiedThroughout(dag, limit, run, j);
      ExtendsTransitive(After(run[i]).states, run[j].before.states, run[j].ready.states);
      NeverEnough(e, After(run[i]).states, run[j].ready.states);
    }
  }

  lemma JustifiedThroughout(dag: TaskDag, limit: int, run: seq<Moment>, i: nat)
    requires DistinctIds(dag) && IsSchedule(dag, limit, run) && i < |run|
    ensures Justified(dag, run[i].ready) && Justified(dag, After(run[i]))
    ensures Extends(run[i].before.states, run[i].ready.states)
    ensures run[i].before.launched <= run[i].ready.launched == After(run[i]).launched
  {
    ScheduleConsistent(dag, limit, run, i);
    assert IsMoment(dag, limit, run[i]);
  }

  lemma ExtendsTransitive(a: States, b: States, c: States)
    requires Extends(a, b) && Extends(b, c)
    ensures Extends(a, c)
  {
  }

  lemma NeverEnough(e: DagNode, states: States, later: States)
    requires e.inputFrom != [] && !CanStillSucceed(e, states) && Extends(states, later)
    ensures !EnoughInputs(e, later)
  {
    TalliesGrow(e.inputFrom, states, later);
    TallyBound(e.inputFrom, later);
  }
}
