# Protocol state machines of the NPS TypeScript SDK, modelled in Dafny

The SDK implements the NPS agent protocols: task orchestration over a DAG (NOP), stateful LLM
contexts and Anchors (NWP), node discovery (NDP), identity and admission (NIP), and native framing
(NCP). This project models the parts of it that are state machines, algorithms and parsers, and
proves what each of them promises over all inputs and over all runs.

`dafny verify dfyconfig.toml` checks the whole project.

## How the model is laid out

| modules | what they model |
|---|---|
| `Common`, `Ids`, `Graph`, `TaskModels`, `Json` | options, white space, set sizes, identifiers in code-unit order, walks and cycles of an edge list, the bookkeeping of Kahn's algorithm, the shared task data |
| `DagValidator` | `validateDag` |
| `StableOrder`, `PortableModel`, `PortableAttempts`, `PortableCompensation`, `PortableProfile`, `PortableTranscript`, `PortableAggregate` | the deterministic transcript evaluator, its topological sort, what every transcript says, and what a completed one aggregates |
| `Scheduler`, `SchedulerExit`, `Orchestrator`, `SchedulerCoverage`, `SchedulerLimits` | the K-of-N ready-node scheduler as a transition system, how its runs end, the loops of the orchestrator that follow it, saga rollback, the graphs on which every completed run is complete, and concrete graphs where it falls short |
| `ContextModel`, `ContextInvariants`, `ContextHistory`, `ContextStore` | the LLM context store: its operations as functions, their invariants, whole runs with history, and the class |
| `StreamCoordinator` | `coordinateStream` over that store, with other callers interfering |
| `ReplayStore`, `ContextAdmission` | the durable replay table and the admission pipeline in front of it |
| `AnchorEpoch` | the epoch fence of one Anchor and of a cluster |
| `NdpRegistry` | the announce registry |
| `ConditionLexer`, `ConditionQuotes`, `ConditionParser`, `ConditionGrammar`, `ConditionEvaluator` | the condition language: scanner, unclosed strings, parser, its grammar as derivation trees, and printing |
| `Inclusion`, `InclusionSize` | the Merkle audit-path fold of the reputation log client |
| `ByteStrings`, `Frames`, `FrameReader`, `NativeServer` | frame headers, the codec's wire assembly, and the two readers of a byte stream |

Classes of the source are classes here, with the same fields and with methods that assign them; every
such method is proved against a function of the old state, and what the source promises is proved of
that function and of runs of it. Results of workers, clocks, random identifiers, signature checks,
callbacks and chunk boundaries are arbitrary: they are parameters, or nondeterministic choices.

## What the proofs found

Where the code and what it is documented to do differ, the model follows the code and the proofs give
the exact condition.

- The scheduler's exit at `src/nop/orchestrator.ts:316` can leave nodes without a state. It resolves
  every node if and only if each node unresolved before the last pass was done waiting
  (`SchedulerExit.ExitResolvesAll`). Where inputs are the edges and every node waits for all of its
  inputs, the graph decides it before the run: no completed task leaves an end node without a state if
  and only if every node that is not an end node feeds an end node directly
  (`SchedulerCoverage.CompletionIffCovered`). `SchedulerLimits.ChainCompletesUnresolved` is a three-node
  chain whose only end node never runs although the task is reported completed.
- The validator checks `edges`, the scheduler follows `inputFrom`. A run without failures resolves
  exactly the least set of nodes that have enough inputs in it, so it resolves every node if and only
  if that set is all of them (`SchedulerExit.CleanRunCompletes`). If it is all of them and no worker
  fails, every run completes every node (`SchedulerExit.ResolvableRunCompletes`, `Orchestrator.RunDag`).
  Two nodes that are each other's input
  validate, never run, and count as completed (`SchedulerLimits.LoopNeverRuns`).
- A task can be aborted on account of an end node that had already been launched, or had completed,
  because an end node without inputs counts as beyond recovery (`src/nop/orchestrator.ts:543`). That
  happens to an end node in some run if and only if it declares no inputs
  (`SchedulerLimits.AbortsAfterIffNoInputs`, `SchedulerLimits.LateAbort`).
- A node still in flight when a task is aborted may complete while it settles; it is then neither
  recorded nor rolled back (`Orchestrator.SettledNotRolledBack`, and a concrete pair of nodes in
  `SchedulerLimits.PairCutShort`). It can happen if and only if `maxConcurrentNodes` is at least two
  (`SchedulerLimits.CutShortIffTwoSlots`).
- `verifyInclusion` ignores `tree_size`. It accepts an entry under an index with a path of a given
  length if and only if that many bits of the index lead to a leaf with the entry
  (`Inclusion.ProvableIffSpelled`). For trees that are not perfect this differs from RFC 9162 in both
  directions. It refuses the honest proof of exactly the leaves above full depth
  (`InclusionSize.HonestAcceptedIffFullDepth`). It accepts those leaves under positions that hold other
  leaves, so for distinct entries every accepted proof names its leaf if and only if the number of
  entries is a power of two (`InclusionSize.NamesItsLeafIffPowerOfTwo`). Comparing the length of the
  path with the depth of the tree would suffice (`InclusionSize.FullDepthAcceptedIsIncluded`). Of three
  entries the third is refused at its own position and accepted at the second
  (`InclusionSize.ThirdOfThreeRejected`, `InclusionSize.ThirdOfThreeMisplaced`).
- `serve` parses a header as soon as four bytes are buffered, so it throws exactly when a chunk ends
  four to seven bytes into an extended header (`NativeServer.ServesAllIffNoBadCut`). `SocketFrameReader`
  has no such cut (`FrameReader.ReadAll`).
- A projection identifier is granted at most once when its projections share an expiry
  (`ContextAdmission.AtMostOnce`). With different expiries a second grant is possible exactly when the
  second projection is still acceptable after the first one's retention, and then both claims can be made
  inside their own acceptance windows (`ContextAdmission.ClaimedAgainIff`,
  `ContextAdmission.ReusedIdentifier`).
- A stream generator that is cancelled before its first pull never enters its `try`, so its reservation
  stays outstanding; the reservation is resolved if and only if the generator was started
  (`StreamCoordinator.CoordinateStream`).
- The condition parser never checks for the end of the input. It accepts a token list if and only if a
  prefix of it derives from the grammar before a token that cannot continue it
  (`ConditionGrammar.ParsesIffDerived`); the list is a whole expression if and only if only the end token
  is left (`ConditionGrammar.CompleteIffNothingLeft`).
- The scanner asks for no closing quote: a string that is not closed runs to the end of the input. A
  text that scans has such a string if and only if the number of its quotes is odd
  (`ConditionQuotes.OpenIffOdd`, `ConditionEvaluator.UnclosedIffOdd`). Every text with an odd number of
  quotes scans, or fails, and evaluates as if its last quote were supplied
  (`ConditionQuotes.ClosingQuoteSupplied`, `ConditionEvaluator.OpenStringAccepted`); of the texts that
  scan, a further quote changes nothing only for those (`ConditionQuotes.QuoteMissingIffOdd`).
- An Anchor opened with the defaults is active at epoch 1, so two of them are active at one epoch
  (`AnchorEpoch.TwoDefaultAnchors`). Anchors are kept at distinct epochs by every run with fresh grants if
  and only if they start at distinct epochs (`AnchorEpoch.NoTwoActiveAtOneEpoch`). Anchors active at different
  epochs remain possible. After any run exactly those are active that were opened active or took
  ownership and have not been told of an epoch above their own since (`AnchorEpoch.ActiveIffRules`,
  `AnchorEpoch.ActiveAreRuling`); so beside such an owner no other is active if and only if every other
  has been told (`AnchorEpoch.OldOwnerLingers`). Two events suffice for two active Anchors
  (`AnchorEpoch.TwoEpochsAtOnce`).

## Assumptions of the theorems

- `SchedulerExit.CleanRunOnEdges` assumes that every `inputFrom` pair is also an edge
  (`InputsAreEdges`). `SchedulerCoverage.CompletionIffCovered` assumes that inputs and edges are the same,
  that nodes wait for all of their inputs (`WaitsForAll`), and a slot for every node. The other scheduler
  theorems assume neither.
- `RunDag` is given what each worker would come to, and whether the run is `quiet`: no abort
  arrives from outside and nothing throws. The order of completions is free.
- `CoordinateStream` is given whether the generator is ever started, and whether the run is `smooth`: the
  source does not throw, nobody aborts or cancels, and the commit is authorized.
- Context-store runs assume that reservation identifiers never repeat and that the identifier factory
  never returns the identifier of a context that existed and is gone (`Allowed`).
- Registry convergence is at one receive time, for announces whose acceptable frames are determined by
  identifier and sequence number; rejected frames may repeat any of them.
- Merkle soundness assumes no collision among the strings that are actually hashed.

## Model

| member | source | states |
|---|---|---|
| DagValidator.ValidateDag | src/nop/dag-validator.ts:25-108 | accepts exactly the well-formed acyclic graphs and reports a cycle exactly for well-formed cyclic ones; which fault is reported follows the order of the checks; an accepted order is a permutation of the nodes with every edge forward; roots and terminals are exactly the nodes without incoming or outgoing edges, and the no-root and no-terminal faults never occur |
| DagValidator.BuildAdjacency | src/nop/dag-validator.ts:48-61 | an edge fault exactly when an endpoint is unknown; otherwise adjacency and in-degrees describe the edge multigraph |
| DagValidator.KahnSort | src/nop/dag-validator.ts:72-87 | the order is short exactly when the graph is cyclic, and topological otherwise |
| Graph.KahnFinish | src/nop/dag-validator.ts:72-87 | an exhausted queue with unplaced nodes means a cycle; otherwise the placed order is topological |
| Graph.TopologicalAcyclic | src/nop/dag-validator.ts:86-87 | a graph with a topological order has no cycle |
| StableOrder.StableTopology | src/nop/portable-profile.ts:228-255 | undefined exactly when a dependency is missing or cyclic, otherwise the lexicographically least topological order |
| StableOrder.GreedyIsLeast | src/nop/portable-profile.ts:241-253 | always taking the smallest available node yields the lexicographically least topological order |
| StableOrder.LeastIsUnique | src/nop/portable-profile.ts:228-255 | the least order depends only on the set of nodes and the set of edges |
| PortableProfile.EvaluateOrchestration | src/nop/portable-profile.ts:36-187 | the transcript is the one of the walk over the least topological order, or the failure for duplicate or cyclic nodes |
| PortableProfile.PermutationInvariant | src/nop/portable-profile.ts:36-187 | the whole transcript (events, states, attempts, mapped parameters, aggregate, compensation, error) is unchanged by permuting the node list |
| PortableTranscript.CompletedVisitsAll | src/nop/portable-profile.ts:36-187 | a completed transcript has every node of the task completed or skipped with its attempts counted and nothing undone; a transcript is completed exactly when it carries no error |
| PortableTranscript.TranscriptRollsBack | src/nop/portable-profile.ts:168-183 | in any transcript the undone nodes declare an action, are undone once each and marked so, never before a node that depends on them, and are all ancestors of one failed node; no other node is marked undone |
| PortableTranscript.BestEffortUndoesAll | src/nop/portable-profile.ts:286-302 | under best effort, once a node has run out of attempts, or had none to make, no completed ancestor with an action is left standing |
| PortableTranscript.StrictAllOrNothing | src/nop/portable-profile.ts:280-302 | under a strict policy, for a node that ran out of attempts or had none, nothing is undone if and only if some completed ancestor lacks an action or no ancestor had completed |
| PortableProfile.VisitNode | src/nop/portable-profile.ts:60-183 | what visiting one node does to the walk: cancel, condition, mapping, attempts, compensation |
| PortableProfile.AggregateResults | src/nop/portable-profile.ts:304-340 | combines the results of completed nodes nothing depends on, in topological order, by strategy |
| PortableAggregate.AggregatesSinks | src/nop/portable-profile.ts:311-323 | a completed transcript combines exactly the results of the completed nodes nothing depends on, each once, in the order of the least topological order; each result is what the last counted attempt of its node returned |
| PortableAggregate.MergeHolds | src/nop/portable-profile.ts:324-339 | a merge holds a key if and only if some object among the values has it; it holds the last value given for the key, except that `merge_all` holds the concatenation of the arrays that the values given for the key end in |
| PortableAttempts.RunAttempts | src/nop/portable-profile.ts:128-166 | the events, end and count of the scripted attempts of a node |
| PortableAttempts.AttemptsBounded | src/nop/portable-profile.ts:128-166 | at most one attempt more than the retry limit, only retryable outcomes are followed by another attempt, and nothing is tried exactly when there is nothing to try |
| PortableCompensation.Compensate | src/nop/portable-profile.ts:257-302 | rollback by policy over the completed ancestors, latest first |
| PortableCompensation.Collect | src/nop/portable-profile.ts:267-276 | the depth-first collection gathers ancestors only and is closed under dependencies |
| PortableCompensation.CompensationTouches | src/nop/portable-profile.ts:277-302 | only completed ancestors of the failed node that declare an action are undone, each to its scripted outcome; every other state is left alone |
| PortableCompensation.CompensationBackward | src/nop/portable-profile.ts:277-302 | each node is undone at most once and never before a node that depends on it |
| PortableCompensation.StrictUndoesNothingIff | src/nop/portable-profile.ts:280-302 | a strict rollback undoes nothing if and only if some completed ancestor lacks an action or there is none, and reports exactly the former |
| PortableCompensation.BestEffortComplete | src/nop/portable-profile.ts:286-302 | under best effort every completed ancestor with an action is undone |
| Scheduler.ScheduleConsistent | src/nop/orchestrator.ts:284-334 | in every state of every completion order: in-flight, resolved and launched nodes are kept apart, results belong to completed nodes, in-flight stays within the limit, every launched node has its K inputs |
| Scheduler.LaunchedWithInputs | src/nop/orchestrator.ts:287-314 | a node is launched only unresolved, with at least K inputs completed or skipped, and within the concurrency limit |
| Scheduler.LaunchedOnce | src/nop/orchestrator.ts:287-314 | no node is launched twice in a run |
| Scheduler.StateWrittenOnce | src/nop/orchestrator.ts:301-322 | a terminal state, once written, never changes |
| Scheduler.PassMakesProgress | src/nop/orchestrator.ts:284-334 | every pass that completes a node strictly lowers the number of unresolved nodes |
| Scheduler.RunIsShort | src/nop/orchestrator.ts:284-334 | no run has more completed passes than nodes |
| SchedulerExit.ExitResolvesAll | src/nop/orchestrator.ts:284-316 | at the exit every node has a state if and only if, before the pass, each unresolved node was done waiting with too few inputs; with at least one slot it is enough that each was done waiting |
| SchedulerExit.CleanRunCompletes | src/nop/orchestrator.ts:276-373 | with no failed node and a limit of at least one, every completion order resolves exactly the least set of nodes with enough inputs in it, hence every node if and only if that set is all nodes; exactly the completed nodes have results |
| SchedulerExit.ResolvableRunCompletes | src/nop/orchestrator.ts:276-373 | where every node can be resolved and no worker fails, every completion order ends with every node completed or skipped |
| SchedulerExit.SucceededInClosed | src/nop/orchestrator.ts:287-322 | in any run, failures or not, only nodes of that least set complete or are skipped |
| SchedulerExit.CleanRunOnEdges | src/nop/orchestrator.ts:276-373 | where inputs are edges of the validated graph, a run without failures ends with every node completed or skipped |
| SchedulerCoverage.CompletionIffCovered | src/nop/orchestrator.ts:284-360 | where inputs are the edges, nodes wait for all of them and there is a slot for each, no completed run leaves an end node without a state, and every completed run has all nodes completed or skipped, if and only if every node that is not an end node feeds an end node directly |
| SchedulerCoverage.CoveredRunSettles | src/nop/orchestrator.ts:284-360 | on such a covered graph, with any number of slots, a completed run has every node completed or skipped |
| SchedulerCoverage.UncoveredRunLeaves | src/nop/orchestrator.ts:284-360 | for any node that is neither an end node nor feeds one, a run in which it fails counts as completed and leaves an end node behind it without a state |
| Scheduler.AbortNotPremature | src/nop/orchestrator.ts:337-351 | an end node with inputs that triggers an abort was never launched and is launched in no continuation; for one without inputs see `SchedulerLimits.AbortsAfterIffNoInputs` |
| SchedulerLimits.ChainCompletesUnresolved | src/nop/orchestrator.ts:287-316 | a chain of three whose first node fails ends completed with its only end node unresolved and ready |
| SchedulerLimits.LoopNeverRuns | src/nop/orchestrator.ts:284-316 | two nodes that wait for each other validate, and the run counts as completed with neither run |
| SchedulerLimits.AbortsAfterIffNoInputs | src/nop/orchestrator.ts:337-351 | an end node that had been launched can be the reason of an abort, in some run of some graph, if and only if it declares no inputs |
| SchedulerLimits.LateAbort | src/nop/orchestrator.ts:537-548 | for every end node without inputs a run in which it completes, its upstream node fails, and the task is aborted all the same |
| SchedulerLimits.PairCutShort | src/nop/orchestrator.ts:343-346 | two independent nodes, the first failing: the task is aborted, and however the second settles it is not rolled back although it declares an action |
| SchedulerLimits.CutShortIffTwoSlots | src/nop/orchestrator.ts:310-346 | an aborted run can cut a node short if and only if there are at least two slots |
| Orchestrator.PreparePass | src/nop/orchestrator.ts:287-314 | one pass up to the race: collect in node order, mark the infeasible, launch up to the limit |
| Orchestrator.RunLoop | src/nop/orchestrator.ts:284-352 | the loop follows the scheduler's transition system, reports what the workers came to and terminates; it is cut short only by an abort that is due or, unless the run is quiet, by a throw |
| Orchestrator.RunDag | src/nop/orchestrator.ts:268-373 | a quiet run never throws, and completes with every node resolved if every node can be resolved and no worker fails; a completed task aggregates exactly the retained end-node results in node order; a failed one failed at an end node or was aborted with everything in flight settled; the rollback it reports is the one its policy asks for; with no failed node the task completes with exactly the resolvable nodes resolved |
| Orchestrator.CanReachEndNode | src/nop/orchestrator.ts:550-566 | breadth-first search terminates and decides path existence |
| Orchestrator.CheckAbort | src/nop/orchestrator.ts:337-341 | true exactly when some end node downstream of the failed one can no longer reach its K |
| Orchestrator.RunSagaCompensation | src/nop/orchestrator.ts:603-647 | a strict rollback with a missing action attempts nothing and names what is missing; any other attempts the whole plan in order and counts outcomes; one that throws has attempted a prefix |
| Orchestrator.SagaPlanBackward | src/nop/orchestrator.ts:612-624 | the plan holds exactly the completed nodes with an action, each once, never upstream before downstream |
| Orchestrator.SettleInFlight | src/nop/orchestrator.ts:568-573 | every node in flight settles, with any outcome |
| Orchestrator.SettledNotRolledBack | src/nop/orchestrator.ts:343-346 | a node that completes while an aborted task settles is not part of the rollback |
| ContextStore.InMemoryLlmContextStore.constructor | src/nwp/context-store.ts:145-153 | an empty, valid store |
| ContextStore.InMemoryLlmContextStore.Sweep | src/nwp/context-store.ts:571-596 | expires idle active contexts, drops tombstones and outcomes whose time is over, counts the changes, keeps the invariant |
| ContextStore.InMemoryLlmContextStore.Reserve | src/nwp/context-store.ts:166-222 | grants or refuses with the source's first fault; a grant adds the reservation, the busy outcome and the mark, and keeps the invariant |
| ContextStore.InMemoryLlmContextStore.EnsureAllocationAvailable | src/nwp/context-store.ts:472-486 | available exactly when active contexts and pending creations are below the quota |
| ContextStore.InMemoryLlmContextStore.NextContextIdFrom | src/nwp/context-store.ts:562-569 | of at most eight factory outputs the first unused one, unless a malformed one comes before it, which is an error, as are eight collisions |
| ContextStore.InMemoryLlmContextStore.Commit | src/nwp/context-store.ts:224-284 | the whole new store and receipt of a commit, or the error with nothing changed; keeps the invariant |
| ContextStore.InMemoryLlmContextStore.Abort | src/nwp/context-store.ts:286-301 | succeeds exactly for an outstanding reservation, clears its mark, records the failure and sweeps; keeps the invariant |
| ContextStore.InMemoryLlmContextStore.Release | src/nwp/context-store.ts:303-351 | replay of a prior outcome, the first fault, or the released context with its next version; keeps the invariant |
| ContextStore.InMemoryLlmContextStore.DecideReserve | src/nwp/context-store.ts:166-212 | the checks of a reservation in source order and what is granted |
| ContextStore.InMemoryLlmContextStore.DecideRelease | src/nwp/context-store.ts:310-331 | the checks of a release in source order |
| ContextInvariants.ReserveSound | src/nwp/context-store.ts:166-222 | a granted reservation keeps links, busy keys and quota |
| ContextInvariants.CommitSound | src/nwp/context-store.ts:224-284 | a commit keeps links, busy keys and quota |
| ContextInvariants.AbortSound | src/nwp/context-store.ts:286-301 | an abort keeps links, busy keys and quota |
| ContextInvariants.ReleaseSound | src/nwp/context-store.ts:303-351 | a release keeps links, busy keys and quota |
| ContextInvariants.SweepSound | src/nwp/context-store.ts:571-596 | a sweep keeps links, busy keys and quota, and never touches a reserved entry |
| ContextHistory.RunsAreHistoric | src/nwp/context-store.ts:166-351 | in every run the store agrees with the full history of versions, receipts and fork parents |
| ContextHistory.MarkedIffOutstanding | src/nwp/context-store.ts:187-212 | an entry is marked with an identifier exactly when that is an outstanding append or reset on it; the entry is then active at the base version |
| ContextHistory.CommitAlwaysLands | src/nwp/context-store.ts:228-268 | a commit of an outstanding append or reset never misses its entry and writes the version after its base |
| ContextHistory.ReceiptsCount | src/nwp/context-store.ts:237-280 | each context's mutation receipts carry versions 1, 2, 3 and so on, each for the state its messages produced |
| ContextHistory.ForkNamesHistory | src/nwp/context-store.ts:203-212 | a fork receipt names a state its parent really had: same binding, and the child's transcript is that state's followed by the fork's messages and result |
| ContextHistory.TranscriptsExtend | src/nwp/context-store.ts:255-268 | between resets every version's transcript starts with each earlier one, under one binding |
| ContextHistory.HistoryOnlyGrows | src/nwp/context-store.ts:166-351 | committed versions and receipts are never rewritten by a later call |
| ContextHistory.QuotaHolds | src/nwp/context-store.ts:472-486 | in every run active contexts and pending creations of an owner stay within the quota |
| ContextHistory.BusyKeysAreReservations | src/nwp/context-store.ts:214-220 | keys in progress are exactly the keys of outstanding reservations, one reservation each |
| StreamCoordinator.CoordinateStream | src/nwp/llm-action-server.ts:255-347 | the reservation is resolved exactly once if the generator was started, by the commit or abort reported, which is kept under its key, and stays outstanding if it was not; an undisturbed stream is resolved by its first stopping frame; a committed message is the concatenation of all deltas and tool calls up to the terminal frame; only the terminal frame of a commit carries a receipt |
| StreamCoordinator.HandleTerminal | src/nwp/llm-action-server.ts:294-342 | exactly one resolution, of the kind reported: a reported failure aborts with its code; a commit needs a stop reason and puts the receipt in the last stop chunk |
| StreamCoordinator.ForwardFrames | src/nwp/llm-action-server.ts:268-293 | frames before the terminal one are forwarded without receipts and accumulate text and tool calls in order |
| StreamCoordinator.OtherCallers | src/nwp/context-store.ts:166-351 | no calls by other holders can resolve or lose an outstanding reservation |
| StreamCoordinator.TryCommit | src/nwp/llm-action-server.ts:324-338 | a commit either resolves the reservation with the message at the end of its transcript, or throws and leaves it outstanding |
| StreamCoordinator.MessageFromChunks | src/nwp/llm-action-server.ts:285-288 | the message depends on the sequence of chunks only, not on how frames group them |
| ReplayStore.SqliteProjectionReplayStore.Claim | src/alpha20/sqlite-projection-replay-store.ts:58-90 | a claim that returns made exactly its transaction step; one that fails at any statement leaves rows and clock as they were |
| ReplayStore.CapacityAndClock | src/alpha20/sqlite-projection-replay-store.ts:66-85 | in every run of replica claims the table stays within capacity and its clock never goes back |
| ReplayStore.RowRetained | src/alpha20/sqlite-projection-replay-store.ts:74-82 | a row stays unchanged until the clock has passed its retention |
| ReplayStore.SecondClaimAfterRetention | src/alpha20/sqlite-projection-replay-store.ts:72-85 | a key is claimed again only after the first claim's retention and before the second's acceptance ends |
| ContextAdmission.AdmitInvocationProjection | src/alpha20/context-admission.ts:150-190 | the first failing check in source order decides and leaves the replay table alone; otherwise exactly one claim is made, and a duplicate, an expired and a failed one are refused with their own codes; an admission lies inside the skewed window, after both signature checks and authorization |
| ContextAdmission.AtMostOnce | src/alpha20/context-admission.ts:176-177 | at most one claim per issuer and projection identifier is granted when its projections share one expiry |
| ContextAdmission.ClaimedAgainIff | src/alpha20/context-admission.ts:176-177 | two projections of one identifier can both be granted, and both inside their own acceptance windows, if and only if the second's acceptance ends after the first's retention |
| ContextAdmission.ReusedIdentifier | src/alpha20/context-admission.ts:176-177 | a concrete identifier granted twice inside both acceptance windows, the projections ten seconds apart |
| AnchorEpoch.OpenFence | src/nwp/anchor-epoch.ts:82-92 | an empty identifier is an error; otherwise the fence is opened with the given or default epoch and role, having observed its own epoch |
| AnchorEpoch.AnchorEpochFence.OnInboundFrame | src/nwp/anchor-epoch.ts:104-136 | fence, leader check and new state for any frame |
| AnchorEpoch.AnchorEpochFence.OnQuorumLost | src/nwp/anchor-epoch.ts:148-154 | only the degraded flag changes |
| AnchorEpoch.AnchorEpochFence.OnQuorumRestored | src/nwp/anchor-epoch.ts:157-160 | only the degraded flag changes |
| AnchorEpoch.AnchorEpochFence.TakeOwnership | src/nwp/anchor-epoch.ts:169-183 | succeeds exactly above every observed epoch and then owns it |
| AnchorEpoch.ActiveOwnsHighest | src/nwp/anchor-epoch.ts:104-183 | in every life an active Anchor owns the highest epoch it has observed, and neither epoch ever falls |
| AnchorEpoch.NoStaleWrite | src/nwp/anchor-epoch.ts:106-131 | after a frame with epoch e no topology write is accepted at an own epoch below e |
| AnchorEpoch.ActiveIffRules | src/nwp/anchor-epoch.ts:104-183 | after any actions an Anchor is active if and only if it was opened active or took ownership and no frame with a larger epoch has arrived since |
| AnchorEpoch.ActiveAreRuling | src/nwp/anchor-epoch.ts:104-183 | in any run of a cluster exactly the Anchors that own an epoch and have not been told of a larger one are active |
| AnchorEpoch.OwnedOnce | src/nwp/anchor-epoch.ts:104-183 | over lost, repeated and reordered frames, every active Anchor owns an epoch of the start or a granted one, and no two own the same |
| AnchorEpoch.NoTwoActiveAtOneEpoch | src/nwp/anchor-epoch.ts:104-183 | every run whose accepted epochs are fresh keeps active Anchors at distinct epochs if and only if they start at distinct epochs |
| AnchorEpoch.TwoDefaultAnchors | src/nwp/anchor-epoch.ts:82-92 | two Anchors opened with the defaults are active at one epoch |
| AnchorEpoch.OldOwnerLingers | src/nwp/anchor-epoch.ts:104-183 | beside an owner that rules, no other Anchor is active after a run if and only if each other owner has been told of an epoch above its own |
| AnchorEpoch.TwoEpochsAtOnce | src/nwp/anchor-epoch.ts:104-183 | a run of two events after which two Anchors are active at different epochs, and the third event that ends it |
| NdpRegistry.NdpRegistryProfile.ApplyAnnounce | src/ndp/registry-profile.ts:91-168 | decision and new registry of one announce, with every rejection |
| NdpRegistry.NdpRegistryProfile.LiveNids | src/ndp/registry-profile.ts:170-175 | exactly the unexpired identifiers, sorted, each once |
| NdpRegistry.NdpRegistryProfile.ResolveCluster | src/ndp/registry-profile.ts:189-212 | no leader exactly without live members; a leader strictly exceeds every other member's epoch; a split shows two members sharing the top epoch |
| NdpRegistry.HighWaterMonotone | src/ndp/registry-profile.ts:127-167 | under any clock a node's sequence high-water mark never falls |
| NdpRegistry.RemovedReturnsLarger | src/ndp/registry-profile.ts:127-167 | a removed node returns only with a strictly larger sequence |
| NdpRegistry.FoldReflects | src/ndp/registry-profile.ts:91-168 | after any announces at one receive time each node shows its effective announce with the largest sequence |
| NdpRegistry.RegistryConverges | src/ndp/registry-profile.ts:91-168 | the final registry depends only on the set of announces, not on order or duplication, as soon as acceptable announces of one identifier and sequence number are equal |
| ConditionLexer.Tokenize | src/nop/condition-evaluator.ts:85-161 | the index-driven scan computes the token list, and an error exactly where the scan fails |
| ConditionLexer.LexRender | src/nop/condition-evaluator.ts:85-161 | scanning written-out tokens gives the tokens back, followed by the end token |
| ConditionLexer.LexOpenString | src/nop/condition-evaluator.ts:110-117 | written-out tokens followed by a string that is never closed scan to those tokens and one string to the end of the input |
| ConditionQuotes.OpenIffOdd | src/nop/condition-evaluator.ts:110-117 | a text that scans runs into a string that is never closed if and only if the number of its quotes is odd |
| ConditionQuotes.ClosingQuoteSupplied | src/nop/condition-evaluator.ts:110-117 | a text with an odd number of quotes scans, or fails, exactly like the text with one more quote at its end |
| ConditionQuotes.QuoteMissingIffOdd | src/nop/condition-evaluator.ts:110-117 | for a text that scans, a quote at its end changes nothing if and only if the number of quotes was odd |
| ConditionParser.Parser.ParseOrExpr | src/nop/condition-evaluator.ts:182-192 | agrees with the grammar function on the tokens left, terminates, and never reads past the end |
| ConditionParser.Parser.ParseAndExpr | src/nop/condition-evaluator.ts:194-203 | as above, for conjunctions |
| ConditionParser.Parser.ParseNotExpr | src/nop/condition-evaluator.ts:205-212 | as above, for negations |
| ConditionParser.Parser.ParseComparisonExpr | src/nop/condition-evaluator.ts:214-234 | as above, for comparisons, flags and parentheses |
| ConditionParser.Parser.ParseOperand | src/nop/condition-evaluator.ts:248-260 | as above, for one operand |
| ConditionGrammar.ParsesIffDerived | src/nop/condition-evaluator.ts:182-260 | for any token list ending in the end token the parser returns a value and a rest if and only if the tokens before the rest derive that value and the rest cannot continue them |
| ConditionGrammar.CompleteIffNothingLeft | src/nop/condition-evaluator.ts:36-37 | an accepted list is one whole expression if and only if nothing but the end token was left |
| ConditionGrammar.LeftAloneIffStops | src/nop/condition-evaluator.ts:182-260 | what follows a whole expression is left alone if and only if its first token cannot continue the expression |
| ConditionGrammar.TreeParses | src/nop/condition-evaluator.ts:182-260 | the tokens of any derivation parse to its value at its precedence level |
| ConditionGrammar.ParsedTree | src/nop/condition-evaluator.ts:182-260 | whatever parses is derived, at every precedence level |
| ConditionEvaluator.PrintedParses | src/nop/condition-evaluator.ts:182-260 | at every precedence level the tokens of an expression parse to its meaning and leave what follows |
| ConditionEvaluator.ParsesToMeaning | src/nop/condition-evaluator.ts:182-260 | parsing an expression's tokens gives its meaning and consumes exactly them |
| ConditionEvaluator.EvaluatesToMeaning | src/nop/condition-evaluator.ts:29-47 | evaluating the printed text of any expression gives its meaning, or an error exactly when a path in it does not resolve |
| ConditionEvaluator.TrailingTokensIgnored | src/nop/condition-evaluator.ts:36-37 | tokens after a printed expression are left alone if and only if the first of them cannot continue it; then they are ignored, although the whole is no expression |
| ConditionEvaluator.AcceptedIffDerived | src/nop/condition-evaluator.ts:29-47 | a condition evaluates to a value if and only if it is blank, for true, or scans to tokens a prefix of which derives that value |
| ConditionEvaluator.WholeIffAllConsumed | src/nop/condition-evaluator.ts:36-37 | an accepted condition is one whole expression if and only if the parser stopped at the end token |
| ConditionEvaluator.OpenStringAccepted | src/nop/condition-evaluator.ts:110-117 | any condition with an odd number of quotes evaluates, or fails, exactly like the trimmed condition with the missing quote supplied |
| ConditionEvaluator.UnclosedIffOdd | src/nop/condition-evaluator.ts:29-47 | a condition that scans runs into a string that is never closed if and only if the number of its quotes is odd |
| ConditionEvaluator.EvaluateCondition | src/nop/condition-evaluator.ts:29-47 | trimming, scanning and parsing together; a blank condition is true |
| Inclusion.VerifyInclusion | src/nip/reputation-client.ts:290-323 | true exactly when the leaf hash matches and the fold of the path reaches the root; an oversized sibling throws |
| Inclusion.HonestProofAccepted | src/nip/reputation-client.ts:306-322 | for every leaf of a perfect tree the honest path is accepted, at every index congruent to the leaf's position |
| Inclusion.ProvableIffSpelled | src/nip/reputation-client.ts:295-322 | for a tree of any shape an entry is accepted under an index with a path of a given length if and only if that many bits of the index lead to a leaf with the entry |
| Inclusion.AcceptedSpells | src/nip/reputation-client.ts:295-322 | every accepted proof spells the way to a leaf with its entry, whatever the shape of the tree |
| Inclusion.PerfectProvableIff | src/nip/reputation-client.ts:306-322 | against a perfect tree exactly the proofs of its depth for the leaf at the index modulo its size can be accepted |
| Inclusion.AcceptedIsIncluded | src/nip/reputation-client.ts:306-322 | against a perfect tree an accepted proof has the depth of the tree and is for the entry at the index modulo its size |
| InclusionSize.HonestAcceptedIffFullDepth | src/nip/reputation-client.ts:306-320 | for a tree of any size the honest RFC 9162 proof is accepted if and only if its path is as long as the tree is deep |
| InclusionSize.FullDepthAcceptedIsIncluded | src/nip/reputation-client.ts:306-322 | an accepted proof as long as the tree is deep, under an index in range, is for the entry at that index |
| InclusionSize.NamesItsLeafIffPowerOfTwo | src/nip/reputation-client.ts:306-322 | for distinct entries every accepted proof names its leaf if and only if the number of entries is a power of two |
| InclusionSize.ThirdOfThreeRejected | src/nip/reputation-client.ts:306-320 | in every tree of three entries the last is refused at its own position |
| InclusionSize.ThirdOfThreeMisplaced | src/nip/reputation-client.ts:306-320 | in every tree of three entries the last is accepted at the second position |
| Frames.ToBytes | src/core/frames.ts:168-183 | every byte of the header: type, flags, zero reserved bytes, and the low bits of the length |
| Frames.HeaderRoundTrip | src/core/frames.ts:135-183 | a header survives the wire if and only if its length fits its format |
| Frames.Encode | src/core/codec.ts:128-157 | fails exactly for an unknown tier or an oversized payload; otherwise the wire of the frame |
| Frames.FrameRoundTrip | src/core/codec.ts:161-166 | decoding an encoded frame gives it back, whatever follows, if and only if its length fits the extended header |
| Frames.FirstFrameOfWire | src/core/codec.ts:147-157 | the first frame of an encoded frame followed by anything is that frame, and the rest is untouched |
| FrameReader.SocketFrameReader.constructor | src/ncp/socket-frame-reader.ts:38-55 | an empty reader over what the socket will deliver |
| FrameReader.SocketFrameReader.Append | src/ncp/socket-frame-reader.ts:57-64 | the buffer grows by the chunk |
| FrameReader.SocketFrameReader.ReadExactly | src/ncp/socket-frame-reader.ts:73-82 | succeeds exactly when that many bytes are still to be had, returns them and leaves the rest; one that fails takes nothing and says why |
| FrameReader.SocketFrameReader.ReadFrame | src/ncp/socket-frame-reader.ts:89-112 | returns exactly the first frame of everything still to be had, or fails exactly when there is none, having taken the header parts it could read |
| FrameReader.ReadAll | src/ncp/socket-frame-reader.ts:105-112 | however encoded frames are cut into chunks, repeated reads return exactly those frames and leave nothing |
| NativeServer.Serve | src/nwp/native-server.ts:82-97 | the buffering loops hand over the wires of the drained buffers and throw on a parse error or trailing bytes |
| NativeServer.DrainPrefix | src/nwp/native-server.ts:86-91 | a prefix of encoded frames yields exactly the whole frames in it and throws exactly at a bad cut |
| NativeServer.ServesAllIffNoBadCut | src/nwp/native-server.ts:82-97 | exactly the encoded frames are served if and only if no chunk ends four to seven bytes into an extended header; otherwise a prefix of them is |
| NativeServer.ShortFramesAreServed | src/nwp/native-server.ts:82-97 | when no frame is extended every split is served whole |

## Left out

- Sockets, HTTP handlers, callbacks, timers, telemetry and the daemon: I/O; their effects appear as arbitrary outcomes.
- `_executeNodeWithRetry`, `_executeNodeOnce` and preflight of the orchestrator: a node's outcome is arbitrary, and so is whether a node or the task throws; the execute record and the task store are not modelled.
- `FastestK` of the orchestrator's aggregation with a count: the orchestrator never passes one, so all results are kept.
- Error message texts and the order in which several unknown references of one kind would be met; the kind of fault is modelled.
- JavaScript truthiness of an empty condition or of zero-length optional fields is written as an empty sequence standing for an absent field.
- JSON values are a tree of exact numbers, texts, lists and unordered objects; key order and floating point are not modelled, and `MergeFields` does not depend on them.
- Numbers of the condition language are exact reals rather than IEEE doubles; the one source of NaN that is kept is a literal with more than one point.
- Path resolution (`resolvePath`) is a parameter of the evaluators.
- Context entries and reservations are values held in maps rather than objects shared by reference; object identity of a reservation is equality of all its fields, which unique identifiers make the same.
- Status and snapshot reads of the context store, and the formatting of expiry dates.
- `bindingFingerprint` is an arbitrary function of the binding; its SHA-256 and canonical JSON are not modelled.
- The tables, pragmas and opening checks of the SQLite file: a claim is one atomic step that commits or changes nothing.
- Decoding of projections, request digests, schema checks, key resolution and signatures: their verdicts are inputs of `AdmitInvocationProjection`, in the order they are asked for.
- Events, stream closing and health callbacks of the Anchor fence, and `stampResponse`; epochs are integers.
- Canonical announce JSON and its SHA-256 digest: the digest is a field of the frame; `localeCompare`, `hasStaleEntry`, `highestSequences` and `discoverBridges` are not modelled.
- `sortedJson`, base64url and SHA-256 of the reputation client: entries and hashes are byte strings, the hash is a parameter with 32-byte results.
- The tier codecs (JSON, MessagePack, binary vector) and the frame registry: a payload is a byte string.
- `dispatchWire` of the native server and its sink: the model ends where a wire is handed over, and a throw there is not modelled.
- Waiter wake-up order of `SocketFrameReader` with several concurrent readers: the model has one reader.
- `src/core/frame-header.ts`, the other header layout; only the layout of `src/core/frames.ts` is modelled.
- Handshake negotiation, validators of URLs and host names, budgets and LRU caches, frame DTOs, error-code tables and manifests: members settled by reading one branch.
