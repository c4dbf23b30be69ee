/** Where the scheduler falls short, at concrete graphs: a pass that only marks infeasible nodes
    ends the run although nodes behind them are unresolved, inputs that wait for each other are
    never run, and a node that completes while an aborted task settles is not rolled back. The
    exact conditions are `SchedulerExit.ExitResolvesAll`, `SchedulerExit.CleanRunCompletes` and
    `CutShortIffTwoSlots`. */
module SchedulerLimits {
  import opened Common
  import opened Ids
  import opened Graph
  import opened TaskModels
  import Json
  import opened Scheduler
  import opened SchedulerExit
  import opened Orchestrator
  import opened SchedulerCoverage

  const A: Id := [0x61]
  const B: Id := [0x62]
  const C: Id := [0x63]

  const CHAIN := TaskDag(
    [DagNode(A, [], 0, [], []), DagNode(B, [A], 0, [], []), DagNode(C, [B], 0, [], [])],
    [Edge(A, B), Edge(B, C)])

  const LAUNCHED := Sched(map[], map[], {A}, {A})
  const FAILED := Sched(map[A := Failed], map[], {}, {A})
  const EXIT := Sched(map[A := Failed, B := Failed], map[], {}, {A})

  /** `a → b → c` where `a` fails: `b` is marked, `c` is left without a state, and the run
      counts as completed although its only end node never ran. */
  lemma ChainCompletesUnresolved(limit: int)
    requires limit >= 1
    ensures Validated(CHAIN, [A, B, C]) && InputsAreEdges(CHAIN)
    ensures CompletedRun(CHAIN, limit, [Moment(INITIAL, LAUNCHED, A, Fail)], EXIT)
    ensures EndNodes(CHAIN) == [C] && C !in EXIT.states
    ensures ReadyNodes(CHAIN.nodes, EXIT) == [CHAIN.nodes[2]]
  {
    ChainValid();
    ThirdPass();
    ChainEnds();
    FirstPass(limit);
    ChainSchedule(limit);
    ChainRun(limit);
  }

  lemma ChainRun(limit: int)
    requires IsSchedule(CHAIN, limit, [Moment(INITIAL, LAUNCHED, A, Fail)])
    ensures CompletedRun(CHAIN, limit, [Moment(INITIAL, LAUNCHED, A, Fail)], EXIT)
  {
    ChainStops(limit);
    ChainEndUnfailed();
    ChainNeverAborts();
  }

  lemma ChainNeverAborts()
    ensures NeverAborts(CHAIN, [Moment(INITIAL, LAUNCHED, A, Fail)], 1)
  {
    ChainKeepsGoing();
    assert After(Moment(INITIAL, LAUNCHED, A, Fail)).states == FAILED.states;
  }

  lemma ChainStops(limit: int)
    ensures Stops(CHAIN, limit, Reached([Moment(INITIAL, LAUNCHED, A, Fail)]), EXIT)
  {
    SecondPass(limit);
    OneResolved();
    ChainReached();
  }

  lemma ChainReached()
    ensures Reached([Moment(INITIAL, LAUNCHED, A, Fail)]) == FAILED
  {
  }

  lemma OneResolved()
    ensures |FAILED.states| == 1
  {
    assert FAILED.states.Keys == {A};
    assert |FAILED.states| == |FAILED.states.Keys|;
  }

  lemma ChainEndUnfailed()
    ensures !AnyEndFailed(CHAIN, EXIT.states) && C !in EXIT.states
  {
    ChainEnds();
    assert A[0] != C[0] && B[0] != C[0];
  }

  lemma ChainSchedule(limit: int)
    requires Prepare(CHAIN, limit, INITIAL) == LAUNCHED
    ensures IsSchedule(CHAIN, limit, [Moment(INITIAL, LAUNCHED, A, Fail)])
    ensures Reached([Moment(INITIAL, LAUNCHED, A, Fail)]) == FAILED
  {
    assert After(Moment(INITIAL, LAUNCHED, A, Fail)) == FAILED;
  }

  lemma ChainKeepsGoing()
    ensures !MustAbort(CHAIN, A, FAILED.states)
  {
    ChainEnds();
    ChainValid();
    assert A[0] != B[0] && B[0] != C[0] && A[0] != C[0];
    Single(B, FAILED.states);
    assert NodeOf(CHAIN, C) == CHAIN.nodes[2];
  }

  lemma ChainValid()
    ensures Validated(CHAIN, [A, B, C]) && InputsAreEdges(CHAIN)
    ensures IdsOf(CHAIN.nodes) == [A, B, C] && NodeIds(CHAIN) == {A, B, C}
  {
    assert IdsOf(CHAIN.nodes) == [A, B, C];
    assert A[0] != B[0] && B[0] != C[0] && A[0] != C[0];
    assert Members([A, B, C]) == {A, B, C};
    var order := [A, B, C];
    assert Edge(A, B) in CHAIN.edges && Edge(B, C) in CHAIN.edges;
    assert Forward(CHAIN.edges, order);
  }

  lemma ChainEnds()
    ensures EndNodes(CHAIN) == [C]
  {
    ChainValid();
    assert A[0] != B[0] && B[0] != C[0] && A[0] != C[0];
    assert Edge(A, B) in CHAIN.edges && Edge(B, C) in CHAIN.edges;
    assert !IsEndNode(CHAIN, A) && !IsEndNode(CHAIN, B) && IsEndNode(CHAIN, C);
    var keep := id => IsEndNode(CHAIN, id);
    assert IdsOf(CHAIN.nodes)[..2] == [A, B] && [A, B][..1] == [A] && [A][..0] == [];
    assert Filter([A], keep) == [];
    assert Filter([A, B], keep) == [];
    assert Filter([A, B, C], keep) == [C];
  }

  /** Nodes, one by one, for the ready filter. */
  lemma ReadyChain(s: Sched)
    ensures ReadyNodes(CHAIN.nodes, s) ==
      (if A !in s.states && A !in s.inFlight then [CHAIN.nodes[0]] else []) +
      (if B !in s.states && B !in s.inFlight && DepsDone(CHAIN.nodes[1], s.states) then [CHAIN.nodes[1]] else []) +
      (if C !in s.states && C !in s.inFlight && DepsDone(CHAIN.nodes[2], s.states) then [CHAIN.nodes[2]] else [])
  {
    var n := CHAIN.nodes;
    assert n[..2] == [n[0], n[1]] && n[..2][..1] == [n[0]] && n[..1][..0] == [];
    assert n[..1] == [n[0]];
    assert ReadyNodes([], s) == [];
    assert ReadyNodes(n[..1], s) == if A !in s.states && A !in s.inFlight then [n[0]] else [];
    assert n[..2][..1] == n[..1];
  }

  lemma Single(d: Id, states: States)
    ensures Successes([d], states) == if Succeeded(states, d) then 1 else 0
    ensures Failures([d], states) == if HasFailed(states, d) then 1 else 0
  {
    TallyStep([d], states);
    assert [d][..0] == [];
  }

  lemma FirstReady()
    ensures ReadyNodes(CHAIN.nodes, INITIAL) == [CHAIN.nodes[0]]
  {
    ReadyChain(INITIAL);
    Single(A, map[]);
    Single(B, map[]);
  }

  lemma FirstPass(limit: int)
    requires limit >= 1
    ensures Prepare(CHAIN, limit, INITIAL) == LAUNCHED
  {
    var n := CHAIN.nodes[0];
    FirstReady();
    assert [n][..0] == [];
    assert Mark([n], map[]) == Marked(map[], [n]);
    assert Launch([n], {}, limit) == {A};
  }

  lemma SecondReady()
    ensures ReadyNodes(CHAIN.nodes, FAILED) == [CHAIN.nodes[1]]
  {
    assert A[0] != B[0] && B[0] != C[0] && A[0] != C[0];
    ReadyChain(FAILED);
    SecondDone();
  }

  lemma SecondDone()
    ensures DepsDone(CHAIN.nodes[1], FAILED.states) && !DepsDone(CHAIN.nodes[2], FAILED.states)
  {
    assert A[0] != B[0];
    Single(A, FAILED.states);
    Single(B, FAILED.states);
  }

  lemma SecondPass(limit: int)
    ensures Prepare(CHAIN, limit, FAILED) == EXIT
  {
    var n := CHAIN.nodes[1];
    assert A[0] != B[0] && B[0] != C[0] && A[0] != C[0];
    SecondReady();
    Single(A, FAILED.states);
    assert [n][..0] == [];
    assert Mark([n], FAILED.states) == Marked(FAILED.states[B := Failed], []);
    assert FAILED.states[B := Failed] == EXIT.states;
  }

  lemma ThirdPass()
    ensures ReadyNodes(CHAIN.nodes, EXIT) == [CHAIN.nodes[2]]
  {
    assert A[0] != B[0] && B[0] != C[0] && A[0] != C[0];
    ReadyChain(EXIT);
    Single(B, EXIT.states);
  }

  // ---- inputs that wait for each other ----

  /** Two nodes that are each other's input, and no edge for the validator to see. */
  const LOOP := TaskDag([DagNode(A, [B], 0, [], []), DagNode(B, [A], 0, [], [])], [])

  /** The graph validates, nothing is ever ready, and the run counts as completed at once. */
  lemma LoopNeverRuns(limit: int)
    ensures Validated(LOOP, [A, B]) && EndNodes(LOOP) == [A, B]
    ensures CompletedRun(LOOP, limit, [], INITIAL)
    ensures LeastClosed(LOOP, {})
  {
    TwoRootless(LOOP);
    LoopWaits(limit);
    EmptyIsLeast();
  }

  lemma TwoRootless(dag: TaskDag)
    requires |dag.nodes| == 2 && dag.nodes[0].id == A && dag.nodes[1].id == B && dag.edges == []
    ensures Validated(dag, [A, B]) && EndNodes(dag) == [A, B]
  {
    assert IdsOf(dag.nodes) == [A, B];
    assert A[0] != B[0];
    assert Forward(dag.edges, [A, B]);
    var keep := id => IsEndNode(dag, id);
    assert IsEndNode(dag, A) && IsEndNode(dag, B);
    assert [A, B][..1] == [A] && [A][..0] == [];
    assert Filter([A], keep) == [A];
    assert Filter([A, B], keep) == [A, B];
  }

  lemma LoopWaits(limit: int)
    ensures Prepare(LOOP, limit, INITIAL) == INITIAL
  {
    Single(A, map[]);
    Single(B, map[]);
    forall n | n in LOOP.nodes ensures !DepsDone(n, map[]) {
    }
    NoneReady(LOOP.nodes, INITIAL);
  }

  lemma EmptyIsLeast()
    ensures LeastClosed(LOOP, {})
  {
    Single(A, map[]);
    Single(B, map[]);
    forall n | n in LOOP.nodes ensures !EnoughIn(n, {}) {
      CountIn(n.inputFrom, map[], {});
    }
  }

  // ---- cut short ----

  const UNDO: seq<CodeUnit> := [0x75]

  /** Two nodes without inputs; the second can be undone. */
  const PAIR := TaskDag([DagNode(A, [], 0, [], []), DagNode(B, [], 0, [], UNDO)], [])

  const BOTH := Sched(map[], map[], {A, B}, {A, B})
  const CUT := Sched(map[A := Failed], map[], {B}, {A, B})

  /** With two slots both start; the first fails, the task is aborted, and however the second
      settles it is not rolled back, although it declares an action. */
  lemma PairCutShort(limit: int, settled: Settlement)
    requires limit >= 2 && settled.Keys == {B}
    ensures CutsShort(PAIR, [A, B], limit, [Moment(INITIAL, BOTH, A, Fail)], CUT, B)
    ensures HasAction(PAIR, B)
    ensures CompletedWhileSettling(settled, B) ==> B !in SagaPlan(PAIR, [A, B], CUT.states)
  {
    TwoRootless(PAIR);
    PairRun(limit);
    assert A[0] != B[0];
    assert PAIR.nodes[1] == NodeOf(PAIR, B);
    if CompletedWhileSettling(settled, B) {
      SettledNotRolledBack(PAIR, [A, B], limit, [Moment(INITIAL, BOTH, A, Fail)], CUT, settled, B);
    }
  }

  lemma PairRun(limit: int)
    requires limit >= 2
    ensures AbortedRun(PAIR, limit, [Moment(INITIAL, BOTH, A, Fail)], CUT)
  {
    PairStarts(limit);
    PairAborts();
    PairAfter();
    PairSchedule(limit);
  }

  lemma PairAfter()
    ensures After(Moment(INITIAL, BOTH, A, Fail)) == CUT
  {
    assert A[0] != B[0];
    assert BOTH.inFlight - {A} == {B};
  }

  lemma PairSchedule(limit: int)
    requires Prepare(PAIR, limit, INITIAL) == BOTH
    ensures IsSchedule(PAIR, limit, [Moment(INITIAL, BOTH, A, Fail)])
  {
  }

  lemma PairStarts(limit: int)
    requires limit >= 2
    ensures Prepare(PAIR, limit, INITIAL) == BOTH
  {
    TwoRootless(PAIR);
    AllReady(PAIR.nodes);
    EveryoneFits(PAIR.nodes, {}, limit, {A, B});
    assert PAIR.nodes[0].id in {A, B} && PAIR.nodes[1].id in Launch(PAIR.nodes, {}, limit);
  }

  /** Nodes without inputs are all ready at the start, and none is marked. */
  lemma {:induction false} AllReady(nodes: seq<DagNode>)
    requires forall n :: n in nodes ==> n.inputFrom == []
    ensures ReadyNodes(nodes, INITIAL) == nodes && Mark(nodes, map[]) == Marked(map[], nodes)
  {
    if nodes != [] {
      var front := nodes[..|nodes| - 1];
      assert nodes == front + [nodes[|nodes| - 1]];
      AllReady(front);
    }
  }

  lemma PairAborts()
    ensures MustAbort(PAIR, A, CUT.states)
  {
    TwoRootless(PAIR);
    StartsReached(PAIR.edges, A);
    assert A[0] != B[0];
    assert NodeOf(PAIR, A) == PAIR.nodes[0];
    assert Hopeless(PAIR, A, A, CUT.states);
  }

  /** Some aborted run of some task cuts a node short if and only if there are two slots. */
  lemma CutShortIffTwoSlots(limit: int)
    ensures (exists dag, topo, run, final, id :: CutsShort(dag, topo, limit, run, final, id)) <==> limit >= 2
  {
    if dag, topo, run, final, id :| CutsShort(dag, topo, limit, run, final, id) {
      OneSlotCutsNothingShort(dag, topo, limit, run, final, id);
    }
    if limit >= 2 {
      PairCutShort(limit, map[B := None]);
    }
  }

  // ---- aborts that come too late ----

  /** The task is aborted on account of end node `e`, which had been launched. */
  ghost predicate AbortsAfter(dag: TaskDag, topo: seq<Id>, limit: int, run: seq<Moment>, final: Sched, e: DagNode) {
    && Validated(dag, topo) && e in dag.nodes && e.id in EndNodes(dag)
    && AbortedRun(dag, limit, run, final) && Hopeless(dag, run[|run| - 1].id, e.id, final.states)
    && e.id in final.launched
  }

  /** An end node that had been launched can be the reason of an abort if and only if it declares
      no inputs. */
  lemma AbortsAfterIffNoInputs(limit: int, e: DagNode)
    requires limit >= 1
    ensures (exists dag, topo, run, final :: AbortsAfter(dag, topo, limit, run, final, e)) <==> e.inputFrom == []
  {
    if dag, topo, run, final :| AbortsAfter(dag, topo, limit, run, final, e) {
      if e.inputFrom != [] {
        LaunchedNotHopeless(dag, topo, limit, run, final, e);
      }
    }
    if e.inputFrom == [] {
      LateAbort(limit, e);
    }
  }

  lemma LaunchedNotHopeless(dag: TaskDag, topo: seq<Id>, limit: int, run: seq<Moment>, final: Sched, e: DagNode)
    requires AbortsAfter(dag, topo, limit, run, final, e)
    ensures e.inputFrom == []
  {
    SameNode(dag, e, NodeOf(dag, e.id));
    if e.inputFrom != [] {
      AbortNotPremature(dag, limit, run, |run| - 1, |run| - 1, e);
    }
  }

  /** An end node without inputs and, on the other side of an edge, a node that fails later. */
  function LateDag(e: DagNode): TaskDag {
    TaskDag([e, Upstream(e)], [Edge(Upstream(e).id, e.id)])
  }

  function Upstream(e: DagNode): (x: DagNode)
    ensures x.id != e.id
  {
    DagNode(e.id + [0], [], 0, [], [])
  }

  function Started(e: DagNode, limit: int): Sched {
    var inFlight := if limit >= 2 then {e.id, Upstream(e).id} else {e.id};
    Sched(map[], map[], inFlight, inFlight)
  }

  function EndDone(e: DagNode, limit: int): Sched {
    Complete(Started(e, limit), e.id, Done(Json.Null))
  }

  function Halfway(e: DagNode): Sched {
    var x := Upstream(e).id;
    Sched(map[e.id := Completed], map[e.id := Json.Null], {x}, {e.id, x})
  }

  function LateRun(e: DagNode, limit: int): seq<Moment> {
    [Moment(INITIAL, Started(e, limit), e.id, Done(Json.Null)),
     Moment(EndDone(e, limit), Halfway(e), Upstream(e).id, Fail)]
  }

  /** The end node completes, then its upstream node fails, and the task is aborted all the same. */
  lemma LateAbort(limit: int, e: DagNode)
    requires limit >= 1 && e.inputFrom == []
    ensures var run := LateRun(e, limit);
            AbortsAfter(LateDag(e), [Upstream(e).id, e.id], limit, run, Reached(run), e)
            && Reached(run).states[e.id] == Completed
  {
    LateValid(e);
    LateStarts(limit, e);
    LateContinues(limit, e);
    LateSchedule(limit, e);
    LateAborted(limit, e);
  }

  lemma LateAborted(limit: int, e: DagNode)
    requires e.inputFrom == [] && IsSchedule(LateDag(e), limit, LateRun(e, limit))
    ensures var run := LateRun(e, limit);
            && AbortedRun(LateDag(e), limit, run, Reached(run))
            && Hopeless(LateDag(e), Upstream(e).id, e.id, Reached(run).states)
            && Reached(run).states[e.id] == Completed && e.id in Reached(run).launched
  {
    LateHopeless(e);
    LateReached(limit, e);
  }

  lemma LateReached(limit: int, e: DagNode)
    ensures Reached(LateRun(e, limit)) == After(Moment(INITIAL, Halfway(e), Upstream(e).id, Fail))
    ensures NeverAborts(LateDag(e), LateRun(e, limit), 1)
  {
  }

  lemma LateValid(e: DagNode)
    ensures Validated(LateDag(e), [Upstream(e).id, e.id]) && e.id in EndNodes(LateDag(e))
    ensures NodeIds(LateDag(e)) == {e.id, Upstream(e).id} && NodeOf(LateDag(e), e.id) == e
  {
    var dag, x := LateDag(e), Upstream(e).id;
    assert IdsOf(dag.nodes) == [e.id, x];
    assert Members([e.id, x]) == {e.id, x} == Members([x, e.id]);
    assert Forward(dag.edges, [x, e.id]);
    assert IsEndNode(dag, e.id) && e.id in IdsOf(dag.nodes);
  }

  lemma LateStarts(limit: int, e: DagNode)
    requires limit >= 1 && e.inputFrom == []
    ensures Prepare(LateDag(e), limit, INITIAL) == Started(e, limit)
  {
    var x := Upstream(e);
    AllReady([e, x]);
    LaunchNext([e], x, {}, limit);
    LaunchNext([], e, {}, limit);
    assert [e] + [x] == [e, x] && [] + [e] == [e];
  }

  lemma LaunchNext(ready: seq<DagNode>, n: DagNode, inFlight: set<Id>, limit: int)
    ensures var before := Launch(ready, inFlight, limit);
            Launch(ready + [n], inFlight, limit) == if |before| >= limit then before else before + {n.id}
  {
    assert (ready + [n])[..|ready|] == ready;
  }

  lemma ReadyNext(nodes: seq<DagNode>, n: DagNode, s: Sched)
    ensures ReadyNodes(nodes + [n], s) ==
            ReadyNodes(nodes, s) + if n.id !in s.states && n.id !in s.inFlight && DepsDone(n, s.states) then [n] else []
  {
    assert (nodes + [n])[..|nodes|] == nodes;
  }

  lemma LateContinues(limit: int, e: DagNode)
    requires limit >= 1 && e.inputFrom == []
    ensures Prepare(LateDag(e), limit, EndDone(e, limit)) == Halfway(e)
  {
    EndDoneShape(e, limit);
    LateReady(limit, e);
    LateLaunched(limit, e);
    assert LateDag(e).nodes == [e, Upstream(e)];
  }

  lemma LateLaunched(limit: int, e: DagNode)
    requires limit >= 1
    ensures var x := Upstream(e);
            Launch(if limit >= 2 then [] else [x], if limit >= 2 then {x.id} else {}, limit) == {x.id}
  {
    if limit < 2 {
      LaunchNext([], Upstream(e), {}, limit);
      assert [] + [Upstream(e)] == [Upstream(e)];
    }
  }

  lemma LateReady(limit: int, e: DagNode)
    requires e.inputFrom == []
    ensures var x, s := Upstream(e), EndDone(e, limit);
            var ready := if limit >= 2 then [] else [x];
            ReadyNodes([e, x], s) == ready && Mark(ready, s.states) == Marked(s.states, ready)
  {
    var x, s := Upstream(e), EndDone(e, limit);
    EndDoneShape(e, limit);
    ReadyNext([e], x, s);
    ReadyNext([], e, s);
    assert [e] + [x] == [e, x] && [] + [e] == [e];
    NothingMarked(ReadyNodes([e, x], s), s.states);
  }

  lemma EndDoneShape(e: DagNode, limit: int)
    ensures var s, x := EndDone(e, limit), Upstream(e).id;
            && s.states == map[e.id := Completed] && s.results == map[e.id := Json.Null]
            && s.inFlight == (if limit >= 2 then {x} else {})
            && s.launched == (if limit >= 2 then {e.id, x} else {e.id})
  {
  }

  lemma LateHopeless(e: DagNode)
    requires e.inputFrom == []
    ensures MustAbort(LateDag(e), Upstream(e).id, After(Moment(INITIAL, Halfway(e), Upstream(e).id, Fail)).states)
    ensures Hopeless(LateDag(e), Upstream(e).id, e.id, After(Moment(INITIAL, Halfway(e), Upstream(e).id, Fail)).states)
  {
    LateValid(e);
    var dag, x := LateDag(e), Upstream(e).id;
    StartsReached(dag.edges, x);
    ReachesStep(dag.edges, x, x, e.id);
  }

  lemma LateSchedule(limit: int, e: DagNode)
    requires Prepare(LateDag(e), limit, INITIAL) == Started(e, limit)
    requires Prepare(LateDag(e), limit, EndDone(e, limit)) == Halfway(e)
    ensures IsSchedule(LateDag(e), limit, LateRun(e, limit))
  {
    EndDoneShape(e, limit);
    assert |map[e.id := Completed]| == 1;
    var run := LateRun(e, limit);
    TwoMoments(LateDag(e), limit, run[0], run[1]);
  }

  lemma TwoMoments(dag: TaskDag, limit: int, m: Moment, n: Moment)
    requires IsMoment(dag, limit, m) && IsMoment(dag, limit, n)
    requires m.before == INITIAL && n.before == After(m)
    ensures IsSchedule(dag, limit, [m, n])
  {
  }
}
