/** Tasks and transcripts of the portable orchestration profile. Condition evaluation and
    path resolution are parameters; they see the results in the order the nodes completed. */
module PortableModel {
  import opened Common
  import opened Ids
  import opened Json
  import opened StableOrder

  const DELEGATE_REJECTED := "NOP-DELEGATE-REJECTED"
  const DELEGATE_TIMEOUT := "NOP-DELEGATE-TIMEOUT"
  const CONDITION_EVAL_ERROR := "NOP-CONDITION-EVAL-ERROR"
  const INPUT_MAPPING_ERROR := "NOP-INPUT-MAPPING-ERROR"
  const RESOURCE_INSUFFICIENT := "NOP-RESOURCE-INSUFFICIENT"
  const TASK_CANCELLED := "NOP-TASK-CANCELLED"
  const TASK_DAG_CYCLE := "NOP-TASK-DAG-CYCLE"
  const TASK_DAG_INVALID := "NOP-TASK-DAG-INVALID"
  const COMPENSATION_NOT_SUPPORTED := "NOP-COMPENSATION-NOT-SUPPORTED"
  const COMPENSATION_FAILED := "NOP-COMPENSATION-FAILED"

  datatype Attempt =
    | Success(result: Json)
    | Timeout
    | Rejected(errorCode: Option<string>, retryable: bool)

  datatype TaskNode = TaskNode(
    id: Id,
    dependsOn: seq<Id>,
    condition: Option<Text>,
    mapping: Option<seq<(Text, Text)>>,
    maxRetries: Option<int>,
    retryOn: Option<seq<string>>,
    attempts: seq<Attempt>,
    preflightAvailable: bool,
    compensable: bool,
    compensationFails: bool)

  datatype Policy = BestEffort | Strict | NoCompensation
  datatype Strategy = All | MergeAll | Merge

  datatype Options = Options(
    preflight: bool,
    maxRetries: Option<int>,
    cancelBefore: Option<Id>,
    policy: Policy,
    strategy: Strategy)

  datatype Task = Task(nodes: seq<TaskNode>, options: Options)

  type Results = seq<(Id, Json)>

  datatype Evaluator = Evaluator(
    condition: (Text, Results) -> Option<bool>,
    resolve: (Text, Results) -> Option<Json>)

  datatype NodeState = Completed | Failed | Skipped | Compensated | CompensationFailed

  datatype Event =
    | TaskPreflight | TaskRunning | TaskFailed | TaskCancelled | TaskCompleted
    | NodeAttempt(id: Id, count: nat)
    | NodeRetrying(id: Id)
    | NodeEntered(id: Id, state: NodeState)
    | NodeCompensating(id: Id)

  datatype Terminal = TerminalFailed | TerminalCancelled | TerminalCompleted

  datatype Transcript = Transcript(
    events: seq<Event>,
    terminal: Terminal,
    error: Option<string>,
    aggregate: Json,
    states: map<Id, NodeState>,
    attempts: map<Id, nat>,
    mapped: map<Id, Json>,
    compensation: seq<Id>)

  datatype Progress = Progress(
    events: seq<Event>,
    results: Results,
    states: map<Id, NodeState>,
    attempts: map<Id, nat>,
    mapped: map<Id, Json>)

  function EmptyFailure(error: string): Transcript {
    Transcript([TaskFailed], TerminalFailed, Some(error), Null, map[], map[], map[], [])
  }

  function Conclude(p: Progress, last: Event, terminal: Terminal, error: Option<string>, aggregate: Json,
                    compensation: seq<Id>): Transcript {
    Transcript(p.events + [last], terminal, error, aggregate, p.states, p.attempts, p.mapped, compensation)
  }

  // ---- nodes by identifier ----

  function Views(nodes: seq<TaskNode>): (r: seq<Dependent>)
    ensures |r| == |nodes|
    ensures forall i :: 0 <= i < |r| ==> r[i] == Dependent(nodes[i].id, nodes[i].dependsOn)
  {
    seq(|nodes|, i requires 0 <= i < |nodes| => Dependent(nodes[i].id, nodes[i].dependsOn))
  }

  function NodeNames(nodes: seq<TaskNode>): seq<Id> {
    Names(Views(nodes))
  }

  function NodeMap(nodes: seq<TaskNode>): map<Id, TaskNode> {
    if nodes == [] then map[]
    else NodeMap(nodes[..|nodes| - 1])[nodes[|nodes| - 1].id := nodes[|nodes| - 1]]
  }

  lemma {:induction false} NodeMapContents(nodes: seq<TaskNode>)
    ensures NodeMap(nodes).Keys == Members(NodeNames(nodes))
    ensures forall id :: id in NodeMap(nodes) ==> NodeMap(nodes)[id] in nodes && NodeMap(nodes)[id].id == id
  {
    if nodes != [] {
      var k := |nodes| - 1;
      NodeMapContents(nodes[..k]);
      assert nodes == nodes[..k] + [nodes[k]];
      assert NodeNames(nodes) == NodeNames(nodes[..k]) + [nodes[k].id];
    }
  }

  /** Every listed dependency is itself a node. */
  ghost predicate KnownDependencies(nodes: map<Id, TaskNode>) {
    forall v, u :: v in nodes && u in nodes[v].dependsOn ==> u in nodes
  }

  ghost predicate Needs(nodes: map<Id, TaskNode>, v: Id, u: Id) {
    v in nodes && u in nodes[v].dependsOn
  }

  /** `order` visits every node once, each after everything it depends on. */
  ghost predicate Respects(nodes: map<Id, TaskNode>, order: seq<Id>) {
    && Distinct(order) && Members(order) == nodes.Keys
    && (forall i, j :: 0 <= i < |order| && 0 <= j < |order| && Needs(nodes, order[j], order[i]) ==> i < j)
  }
}
