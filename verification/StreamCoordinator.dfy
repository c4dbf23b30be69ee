/** `StatefulLlmActionProvider.coordinateStream`: reads the provider's stream, forwards it,
    and resolves its reservation. What the source, the authorizer, the abort signal and the
    consumer do is arbitrary, and other callers use the store whenever the coordinator waits. */
module StreamCoordinator {
  import opened Common
  import opened ContextModel
  import opened ContextInvariants
  import opened ContextStore

  const NODE_UNAVAILABLE := "NWP-NODE-UNAVAILABLE"

  datatype Chunk = Chunk(
    contentDelta: Option<string>,
    toolCalls: seq<string>,
    stopReason: Option<string>,
    error: bool,
    usage: bool,
    context: Option<Receipt>)

  /** `chunks` is `None` when the payload does not decode. */
  datatype StreamFrame = StreamFrame(isLast: bool, errorCode: Option<string>, chunks: Option<seq<Chunk>>)

  datatype Resolution =
    | NeverStarted
    | CommittedAs(receipt: Receipt, message: Message, read: nat)
    | AbortedWith(code: string)

  function ChunkText(chunks: seq<Chunk>): string {
    if chunks == [] then ""
    else
      ChunkText(chunks[..|chunks| - 1]) +
      (if chunks[|chunks| - 1].contentDelta.Some? then chunks[|chunks| - 1].contentDelta.value else "")
  }

  function ChunkCalls(chunks: seq<Chunk>): seq<string> {
    if chunks == [] then [] else ChunkCalls(chunks[..|chunks| - 1]) + chunks[|chunks| - 1].toolCalls
  }

  /** All text and all tool calls of a list of decoded frames, in order. */
  function StreamText(frames: seq<StreamFrame>): string {
    if frames == [] then ""
    else
      var last := frames[|frames| - 1];
      StreamText(frames[..|frames| - 1]) + (if last.chunks.Some? then ChunkText(last.chunks.value) else "")
  }

  function StreamCalls(frames: seq<StreamFrame>): seq<string> {
    if frames == [] then []
    else
      var last := frames[|frames| - 1];
      StreamCalls(frames[..|frames| - 1]) + (if last.chunks.Some? then ChunkCalls(last.chunks.value) else [])
  }

  function AssistantMessage(frames: seq<StreamFrame>): Message {
    Message("assistant", StreamText(frames), StreamCalls(frames))
  }

  /** All chunks of a list of frames, in order. */
  function Flattened(frames: seq<StreamFrame>): seq<Chunk> {
    if frames == [] then []
    else
      var last := frames[|frames| - 1];
      Flattened(frames[..|frames| - 1]) + (if last.chunks.Some? then last.chunks.value else [])
  }

  lemma {:induction false} ChunksAppend(a: seq<Chunk>, b: seq<Chunk>)
    ensures ChunkText(a + b) == ChunkText(a) + ChunkText(b)
    ensures ChunkCalls(a + b) == ChunkCalls(a) + ChunkCalls(b)
  {
    if b == [] {
      assert a + b == a;
    } else {
      assert (a + b)[..|a + b| - 1] == a + b[..|b| - 1];
      ChunksAppend(a, b[..|b| - 1]);
    }
  }

  /** How chunks are grouped into frames does not matter to the message. */
  lemma {:induction false} MessageFromChunks(frames: seq<StreamFrame>)
    ensures AssistantMessage(frames) ==
            Message("assistant", ChunkText(Flattened(frames)), ChunkCalls(Flattened(frames)))
  {
    if frames != [] {
      var last := frames[|frames| - 1];
      MessageFromChunks(frames[..|frames| - 1]);
      ChunksAppend(Flattened(frames[..|frames| - 1]), if last.chunks.Some? then last.chunks.value else []);
    }
  }

  predicate TerminalOnly(c: Chunk) {
    c.stopReason.Some? || c.error || c.usage || c.context.Some?
  }

  predicate ReportsFailure(f: StreamFrame)
    requires f.chunks.Some?
  {
    f.errorCode.Some? || exists c :: c in f.chunks.value && (c.stopReason == Some("error") || c.error)
  }

  predicate HasStop(chunks: seq<Chunk>) {
    exists c :: c in chunks && c.stopReason.Some?
  }

  function Sanitized(chunks: seq<Chunk>): (r: seq<Chunk>)
    ensures |r| == |chunks|
    ensures forall i :: 0 <= i < |r| ==> r[i] == chunks[i].(context := None)
  {
    seq(|chunks|, i requires 0 <= i < |chunks| => chunks[i].(context := None))
  }

  /** The last chunk that carries a stop reason. */
  function TerminalIndex(chunks: seq<Chunk>): (r: Option<nat>)
    ensures r.Some? <==> HasStop(chunks)
    ensures r.Some? ==> r.value < |chunks| && chunks[r.value].stopReason.Some?
  {
    if chunks == [] then None
    else
      assert chunks == chunks[..|chunks| - 1] + [chunks[|chunks| - 1]];
      if chunks[|chunks| - 1].stopReason.Some? then Some(|chunks| - 1)
      else TerminalIndex(chunks[..|chunks| - 1])
  }

  // ---- what the store records of a reservation ----

  /** The resolutions of one reservation, in order. */
  ghost function ResolutionsOf(log: seq<Resolved>, r: Reservation): seq<Resolved> {
    if log == [] then []
    else
      var last := log[|log| - 1];
      ResolutionsOf(log[..|log| - 1], r) + if last.r == r then [last] else []
  }

  lemma ResolvedNext(log: seq<Resolved>, last: Resolved, r: Reservation)
    ensures ResolutionsOf(log + [last], r) == ResolutionsOf(log, r) + if last.r == r then [last] else []
  {
    assert (log + [last])[..|log|] == log;
  }

  /** The one resolution a coordinator reports. */
  ghost function Reported(r: Reservation, resolution: Resolution): seq<Resolved> {
    match resolution
    case NeverStarted => []
    case AbortedWith(code) => [ByAbort(r, Some(code))]
    case CommittedAs(receipt, message, _) => [ByCommit(r, message, receipt)]
  }

  /** What the store retains under the reservation's idempotency key. The sweep that ends an
      abort may already have dropped the failure. */
  ghost predicate Retained(s: Store, r: Reservation, resolution: Resolution) {
    var k := KeyOf(r);
    match resolution
    case NeverStarted => IsOutstanding(s, r)
    case AbortedWith(code) =>
      k in s.idempotency ==> s.idempotency[k].state == FailedOutcome && s.idempotency[k].errorCode == Some(code)
    case CommittedAs(receipt, _, _) =>
      k in s.idempotency && s.idempotency[k].state == CompletedOutcome && s.idempotency[k].receipt == Some(receipt)
  }

  /** The context a receipt names ends with the message. */
  ghost predicate EndsWith(s: Store, receipt: Receipt, message: Message) {
    && receipt.contextId in s.contexts
    && var t := s.contexts[receipt.contextId].transcript;
    && t != [] && t[|t| - 1] == message
  }

  // ---- other callers ----

  /** No call by anyone else can resolve or lose an outstanding reservation. */
  lemma SweptKeeps(o: Options, s: Store, r: Reservation, now: int)
    requires Sound(o, s) && IsOutstanding(s, r)
    ensures Sound(o, Swept(o, s, now)) && IsOutstanding(Swept(o, s, now), r)
  {
    SweepSound(o, s, now);
  }

  lemma AbortKeepsOthers(o: Options, s: Store, r: Reservation, other: Reservation, code: Option<string>, now: int,
                         now': int)
    requires Sound(o, s) && IsOutstanding(s, r) && IsOutstanding(s, other) && other != r
    ensures IsOutstanding(Swept(o, Aborted(o, s, other, code, now), now'), r)
  {
    assert WellKept(s, r.id);
  }

  method OtherReserve(store: InMemoryLlmContextStore, r: Reservation, req: Request, id: string)
    requires store.Valid() && IsOutstanding(store.State(), r)
    modifies store
    ensures store.Valid() && IsOutstanding(store.State(), r)
    ensures ResolutionsOf(store.resolutions, r) == ResolutionsOf(old(store.resolutions), r)
  {
    var now0: int, now1: int, now2: int := *, *, *;
    if id !in store.reservations {
      SweptKeeps(store.options, store.State(), r, now0);
      var _ := store.Reserve(req, id, now0, now1, now2);
    }
  }

  method OtherResolve(store: InMemoryLlmContextStore, r: Reservation, other: Reservation)
    requires store.Valid() && IsOutstanding(store.State(), r) && other != r
    modifies store
    ensures store.Valid() && IsOutstanding(store.State(), r)
    ensures ResolutionsOf(store.resolutions, r) == ResolutionsOf(old(store.resolutions), r)
  {
    var now0: int, now1: int := *, *;
    var commits: bool := *;
    if commits {
      var assistant: Message := *;
      var outputs: seq<string> := *;
      ghost var log := store.resolutions;
      var result := store.Commit(other, assistant, now0, now1, outputs);
      if result.Ok? {
        ResolvedNext(log, ByCommit(other, assistant, result.value), r);
      } else {
        assert store.resolutions == log;
      }
    } else {
      var code: Option<string> := *;
      if IsOutstanding(Store(store.contexts, store.idempotency, store.reservations), other) {
        AbortKeepsOthers(store.options, store.State(), r, other, code, now0, now1);
      }
      ghost var log := store.resolutions;
      var ok := store.Abort(other, code, now0, now1);
      if ok {
        ResolvedNext(log, ByAbort(other, code), r);
      } else {
        assert store.resolutions == log;
      }
    }
  }

  method OtherRelease(store: InMemoryLlmContextStore, r: Reservation)
    requires store.Valid() && IsOutstanding(store.State(), r)
    modifies store
    ensures store.Valid() && IsOutstanding(store.State(), r)
    ensures ResolutionsOf(store.resolutions, r) == ResolutionsOf(old(store.resolutions), r)
  {
    var now0: int, now1: int, now2: int := *, *, *;
    var owner: Owner := *;
    var contextId: string, key: string := *, *;
    var baseVersion: int := *;
    var _ := store.Release(owner, contextId, baseVersion, key, now0, now1, now2);
  }

  /** Any number of store calls by other holders, with any arguments. */
  method OtherCallers(store: InMemoryLlmContextStore, r: Reservation)
    requires store.Valid() && IsOutstanding(store.State(), r)
    modifies store
    ensures store.Valid() && IsOutstanding(store.State(), r)
    ensures ResolutionsOf(store.resolutions, r) == ResolutionsOf(old(store.resolutions), r)
  {
    var count: nat :| count >= 0;
    for i := 0 to count
      invariant store.Valid() && IsOutstanding(store.State(), r)
      invariant ResolutionsOf(store.resolutions, r) == ResolutionsOf(old(store.resolutions), r)
    {
      var which: nat := *;
      if which == 0 {
        var req: Request := *;
        var id: string := *;
        OtherReserve(store, r, req, id);
      } else if which == 1 {
        var other: Reservation := *;
        if other != r {
          OtherResolve(store, r, other);
        }
      } else if which == 2 {
        OtherRelease(store, r);
      } else {
        var now: int := *;
        var _ := store.Sweep(now);
      }
    }
  }

  // ---- the coordinator ----

  function Rewritten(f: StreamFrame, chunks: seq<Chunk>, errorCode: Option<string>): StreamFrame {
    StreamFrame(f.isLast || errorCode.Some?, errorCode, Some(chunks))
  }

  /** No chunk carries a context receipt. */
  predicate NoReceipt(f: StreamFrame) {
    f.chunks.Some? && forall c :: c in f.chunks.value ==> c.context.None?
  }

  /** The frames before position `n` decode and leave terminal fields to the last frame. */
  predicate Forwardable(source: seq<StreamFrame>, n: nat)
    requires n <= |source|
  {
    forall j :: 0 <= j < n ==>
      !source[j].isLast && source[j].chunks.Some? && forall c :: c in source[j].chunks.value ==> !TerminalOnly(c)
  }

  /** The terminal frame as sent on success: the receipt sits in its last stop chunk. */
  predicate CarriesReceipt(sent: StreamFrame, original: StreamFrame, receipt: Receipt) {
    && original.chunks.Some? && sent.chunks.Some? && TerminalIndex(original.chunks.value).Some?
    && var at := TerminalIndex(original.chunks.value).value;
    && |sent.chunks.value| == |original.chunks.value|
    && (forall i :: 0 <= i < |sent.chunks.value| ==>
          sent.chunks.value[i] == original.chunks.value[i].(context := if i == at then Some(receipt) else None))
  }

  lemma OneMore(source: seq<StreamFrame>, n: nat)
    requires n < |source| && source[n].chunks.Some?
    ensures StreamText(source[..n + 1]) == StreamText(source[..n]) + ChunkText(source[n].chunks.value)
    ensures StreamCalls(source[..n + 1]) == StreamCalls(source[..n]) + ChunkCalls(source[n].chunks.value)
  {
    assert source[..n + 1][..n] == source[..n];
  }

  lemma SentWithoutReceipt(f: StreamFrame)
    requires f.chunks.Some?
    ensures NoReceipt(Rewritten(f, Sanitized(f.chunks.value), f.errorCode))
  {
  }

  /** The payload does not decode, or a frame that is not the last carries terminal fields. */
  predicate Malformed(f: StreamFrame) {
    f.chunks.None? || (!f.isLast && exists c :: c in f.chunks.value && TerminalOnly(c))
  }

  /** The loop forwards the frames before position `n` and stops there. */
  predicate StopsAt(source: seq<StreamFrame>, n: nat) {
    n <= |source| && Forwardable(source, n) && (n < |source| ==> source[n].isLast || Malformed(source[n]))
  }

  function FirstStop(source: seq<StreamFrame>): (n: nat)
    ensures StopsAt(source, n)
  {
    StopFrom(source, 0)
  }

  function StopFrom(source: seq<StreamFrame>, from: nat): (n: nat)
    requires from <= |source| && Forwardable(source, from)
    ensures StopsAt(source, n)
    decreases |source| - from
  {
    if from == |source| || source[from].isLast || Malformed(source[from]) then from
    else StopFrom(source, from + 1)
  }

  lemma StopUnique(source: seq<StreamFrame>, m: nat, n: nat)
    requires StopsAt(source, m) && StopsAt(source, n)
    ensures m == n
  {
  }

  lemma ForwardableNext(source: seq<StreamFrame>, n: nat)
    requires n < |source| && Forwardable(source, n) && !source[n].isLast && !Malformed(source[n])
    ensures Forwardable(source, n + 1)
  {
  }

  method AbortReservation(store: InMemoryLlmContextStore, r: Reservation, code: string)
    requires store.Valid() && IsOutstanding(store.State(), r)
    modifies store
    ensures store.Valid() && r.id !in store.reservations
    ensures ResolutionsOf(store.resolutions, r)
            == ResolutionsOf(old(store.resolutions), r) + Reported(r, AbortedWith(code))
    ensures Retained(store.State(), r, AbortedWith(code))
  {
    var now0: int, now1: int := *, *;
    ResolvedNext(store.resolutions, ByAbort(r, Some(code)), r);
    var _ := store.Abort(r, Some(code), now0, now1);
  }

  /** Authorization and commit of a successful terminal frame. */
  method CommitMessage(store: InMemoryLlmContextStore, r: Reservation, message: Message, read: nat, smooth: bool)
      returns (resolution: Resolution)
    requires store.Valid() && IsOutstanding(store.State(), r)
    modifies store
    ensures store.Valid() && r.id !in store.reservations
    ensures resolution.AbortedWith? || resolution.CommittedAs?
    ensures ResolutionsOf(store.resolutions, r) == ResolutionsOf(old(store.resolutions), r) + Reported(r, resolution)
    ensures Retained(store.State(), r, resolution)
    ensures resolution.CommittedAs? ==>
              && resolution.message == message && resolution.read == read
              && EndsWith(store.State(), resolution.receipt, message)
    ensures smooth ==> resolution.CommittedAs? || Allocates(r.request.operation)
  {
    OtherCallers(store, r);
    var authorized: bool := *;
    if !authorized && !smooth {
      var code: string := *;
      AbortReservation(store, r, code);
      return AbortedWith(code);
    }
    var committed := TryCommit(store, r, message);
    if committed.Err? {
      var code: string := *;
      AbortReservation(store, r, code);
      return AbortedWith(code);
    }
    return CommittedAs(committed.value, message, read);
  }

  /** One call of the store; a commit that throws leaves the reservation as it was. */
  method TryCommit(store: InMemoryLlmContextStore, r: Reservation, message: Message)
      returns (committed: Result<Receipt>)
    requires store.Valid() && IsOutstanding(store.State(), r)
    modifies store
    ensures store.Valid()
    ensures committed.Err? ==> IsOutstanding(store.State(), r) && store.resolutions == old(store.resolutions)
    ensures committed.Err? ==> Allocates(r.request.operation)
    ensures committed.Ok? ==>
              && r.id !in store.reservations
              && store.resolutions == old(store.resolutions) + [ByCommit(r, message, committed.value)]
              && ResolutionsOf(store.resolutions, r)
                 == ResolutionsOf(old(store.resolutions), r) + [ByCommit(r, message, committed.value)]
              && Retained(store.State(), r, CommittedAs(committed.value, message, 0))
              && EndsWith(store.State(), committed.value, message)
  {
    var now0: int, now1: int := *, *;
    var outputs: seq<string> := *;
    ghost var before := store.State();
    ghost var log := store.resolutions;
    LockedCommits(store.options, before, r, outputs);
    committed := store.Commit(r, message, now0, now1, outputs);
    if committed.Ok? {
      ResolvedNext(log, ByCommit(r, message, committed.value), r);
      CommitRecorded(store.options, before, r, CommitTarget(before, r, outputs).value, message, now0, now1);
    } else {
      assert store.resolutions == log;
    }
  }

  /** Only the search for a fresh context identifier can make a commit fail. */
  lemma LockedCommits(o: Options, s: Store, r: Reservation, outputs: seq<string>)
    requires Sound(o, s) && IsOutstanding(s, r)
    ensures CommitTarget(s, r, outputs).Ok? || Allocates(r.request.operation)
  {
    assert WellKept(s, r.id);
    if !Allocates(r.request.operation) {
      CommitFindsEntry(o, s, r, outputs);
    }
  }

  /** A commit leaves its message at the end of the transcript and its receipt under the key. */
  lemma CommitRecorded(o: Options, s: Store, r: Reservation, target: string, message: Message, now: int, now': int)
    requires Allocates(r.request.operation) || target in s.contexts
    ensures var t := Committed(o, s, r, target, message, now, now');
            var receipt := CommitReceipt(r, target, t.contexts[target]);
            && r.id !in t.reservations && EndsWith(t, receipt, message)
            && Retained(t, r, CommittedAs(receipt, message, 0))
  {
  }

  /** The terminal frame: a reported failure or a missing stop reason aborts, the rest is
      authorized and committed. `last` is the frame sent for it, if any. */
  method HandleTerminal(store: InMemoryLlmContextStore, r: Reservation, frame: StreamFrame, message: Message, read: nat,
                        smooth: bool)
      returns (resolution: Resolution, last: seq<StreamFrame>)
    requires store.Valid() && IsOutstanding(store.State(), r)
    requires frame.isLast && frame.chunks.Some?
    modifies store
    ensures store.Valid() && r.id !in store.reservations
    ensures resolution.AbortedWith? || resolution.CommittedAs?
    ensures ResolutionsOf(store.resolutions, r) == ResolutionsOf(old(store.resolutions), r) + Reported(r, resolution)
    ensures Retained(store.State(), r, resolution)
    ensures resolution.AbortedWith? ==> forall f :: f in last ==> NoReceipt(f)
    ensures ReportsFailure(frame) ==>
              resolution == AbortedWith(if frame.errorCode.Some? then frame.errorCode.value else NODE_UNAVAILABLE)
    ensures resolution.CommittedAs? ==>
              && HasStop(frame.chunks.value)
              && resolution.message == message && resolution.read == read
              && |last| == 1 && CarriesReceipt(last[0], frame, resolution.receipt)
              && EndsWith(store.State(), resolution.receipt, message)
    ensures !ReportsFailure(frame) && !HasStop(frame.chunks.value) ==> resolution == AbortedWith(NODE_UNAVAILABLE)
    ensures smooth && !ReportsFailure(frame) && HasStop(frame.chunks.value) ==>
              resolution.CommittedAs? || Allocates(r.request.operation)
  {
    var chunks := frame.chunks.value;
    var sanitized := Sanitized(chunks);
    if ReportsFailure(frame) {
      var code := if frame.errorCode.Some? then frame.errorCode.value else NODE_UNAVAILABLE;
      AbortReservation(store, r, code);
      return AbortedWith(code), [Rewritten(frame, sanitized, Some(code))];
    }
    var terminalIndex := TerminalIndex(chunks);
    if terminalIndex.None? {
      AbortReservation(store, r, NODE_UNAVAILABLE);
      return AbortedWith(NODE_UNAVAILABLE), [];
    }
    resolution := CommitMessage(store, r, message, read, smooth);
    last := [];
    if resolution.CommittedAs? {
      var at := terminalIndex.value;
      sanitized := sanitized[at := sanitized[at].(context := Some(resolution.receipt))];
      last := [Rewritten(frame, sanitized, frame.errorCode)];
      assert CarriesReceipt(last[0], frame, resolution.receipt);
    }
  }

  /** Pull and forward until a terminal frame arrives. Anything else that ends the loop (the
      source throws or runs out, the signal fires, a frame is malformed, the consumer cancels)
      leaves `n` at the end of the source or marks the pull as broken. */
  method ForwardFrames(store: InMemoryLlmContextStore, r: Reservation, source: seq<StreamFrame>, smooth: bool)
      returns (terminal: bool, n: nat, content: string, toolCalls: seq<string>, sent: seq<StreamFrame>)
    requires store.Valid() && IsOutstanding(store.State(), r)
    modifies store
    ensures store.Valid() && IsOutstanding(store.State(), r)
    ensures ResolutionsOf(store.resolutions, r) == ResolutionsOf(old(store.resolutions), r)
    ensures forall f :: f in sent ==> NoReceipt(f)
    ensures terminal ==> n < |source| && source[n].isLast && source[n].chunks.Some?
    ensures terminal ==> StopsAt(source, n) && |sent| == n
    ensures smooth ==> StopsAt(source, n) && (terminal <==> n < |source| && !Malformed(source[n]))
    ensures terminal ==> content == StreamText(source[..n + 1]) && toolCalls == StreamCalls(source[..n + 1])
  {
    content, toolCalls, sent, terminal := "", [], [], false;
    n := 0;
    while n < |source|
      invariant n <= |source|
      invariant store.Valid() && IsOutstanding(store.State(), r)
      invariant ResolutionsOf(store.resolutions, r) == ResolutionsOf(old(store.resolutions), r)
      invariant Forwardable(source, n)
      invariant content == StreamText(source[..n]) && toolCalls == StreamCalls(source[..n])
      invariant |sent| == n && forall f :: f in sent ==> NoReceipt(f)
      decreases |source| - n
    {
      OtherCallers(store, r);
      var interrupted: bool := *;
      var frame := source[n];
      if (interrupted && !smooth) || Malformed(frame) {
        return false, n, content, toolCalls, sent;
      }
      var chunks := frame.chunks.value;
      OneMore(source, n);
      content := content + ChunkText(chunks);
      toolCalls := toolCalls + ChunkCalls(chunks);
      if frame.isLast {
        return true, n, content, toolCalls, sent;
      }
      SentWithoutReceipt(frame);
      ForwardableNext(source, n);
      sent := sent + [Rewritten(frame, Sanitized(chunks), frame.errorCode)];
      var cancelled: bool := *;
      if cancelled && !smooth {
        return false, n, content, toolCalls, sent;
      }
      n := n + 1;
    }
  }

  /** What a stream comes to when nothing disturbs it: the frame it stops at decides. A commit can
      still fail for want of a fresh context identifier. */
  predicate Undisturbed(r: Reservation, source: seq<StreamFrame>, n: nat, resolution: Resolution) {
    if n >= |source| || Malformed(source[n]) then resolution == AbortedWith(NODE_UNAVAILABLE)
    else if ReportsFailure(source[n]) then
      resolution == AbortedWith(if source[n].errorCode.Some? then source[n].errorCode.value else NODE_UNAVAILABLE)
    else if !HasStop(source[n].chunks.value) then resolution == AbortedWith(NODE_UNAVAILABLE)
    else
      || (resolution.CommittedAs? && resolution.read == n + 1)
      || (resolution.AbortedWith? && Allocates(r.request.operation))
  }

  /** A coordinator that was started ends with its reservation resolved, by one commit or one
      abort; one that is cancelled before its first pull leaves the reservation outstanding. In a
      `smooth` run the source does not throw, nobody aborts or cancels, and the commit is
      authorized; then the frames alone decide. */
  method CoordinateStream(store: InMemoryLlmContextStore, r: Reservation, source: seq<StreamFrame>,
                          started: bool, smooth: bool)
      returns (resolution: Resolution, sent: seq<StreamFrame>)
    requires store.Valid() && IsOutstanding(store.State(), r)
    modifies store
    ensures store.Valid()
    ensures resolution.NeverStarted? <==> !started
    ensures IsOutstanding(store.State(), r) <==> !started
    ensures started ==> r.id !in store.reservations
    ensures started && smooth ==> Undisturbed(r, source, FirstStop(source), resolution)
    ensures ResolutionsOf(store.resolutions, r) == ResolutionsOf(old(store.resolutions), r) + Reported(r, resolution)
    ensures Retained(store.State(), r, resolution)
    ensures !started ==> sent == []
    ensures resolution.AbortedWith? ==> forall f :: f in sent ==> NoReceipt(f)
    ensures resolution.CommittedAs? ==>
              var n := resolution.read;
              && 0 < n <= |source| && Forwardable(source, n - 1) && source[n - 1].isLast
              && source[n - 1].chunks.Some? && !ReportsFailure(source[n - 1])
              && resolution.message == AssistantMessage(source[..n])
              && |sent| == n && (forall f :: f in sent[..n - 1] ==> NoReceipt(f))
              && CarriesReceipt(sent[n - 1], source[n - 1], resolution.receipt)
    ensures resolution.CommittedAs? ==> EndsWith(store.State(), resolution.receipt, resolution.message)
  {
    if !started {
      return NeverStarted, [];
    }
    var terminal, n, content, toolCalls;
    terminal, n, content, toolCalls, sent := ForwardFrames(store, r, source, smooth);
    if smooth {
      StopUnique(source, FirstStop(source), n);
    }
    if !terminal {
      AbortReservation(store, r, NODE_UNAVAILABLE);
      return AbortedWith(NODE_UNAVAILABLE), sent;
    }
    var last;
    resolution, last := HandleTerminal(store, r, source[n], Message("assistant", content, toolCalls), n + 1, smooth);
    ghost var before := sent;
    sent := sent + last;
    assert sent[..n] == before;
  }
}
