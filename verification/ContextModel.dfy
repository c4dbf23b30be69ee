/** The stateful LLM context store as functions on its three maps: contexts, idempotency
    outcomes and outstanding reservations. Clock readings, reservation identifiers and the
    outputs of the context-id factory are inputs; the binding fingerprint is a parameter. */
module ContextModel {
  import opened Common

  datatype Result<+T> = Ok(value: T) | Err(error: Error)

  datatype Error =
    | ParamsInvalid
    | OperationUnsupported
    | IdempotencyConflict
    | LimitExceeded
    | NotFound
    | Forbidden
    | Expired(version: nat)
    | VersionConflict(version: nat)
    | BindingMismatch
    | ReservationInactive
    | IdCollisions

  datatype Operation = Create | Append | Fork | Reset | Release

  datatype Owner = Owner(nid: string, securityScope: string)
  /** Absent content is the empty string, absent tool calls the empty list. */
  datatype Message = Message(role: string, content: string, toolCalls: seq<string>)
  datatype Binding = Binding(model: string, systemMessages: seq<Message>, tools: string, runtimeRevision: string)

  datatype Request = Request(
    operation: Operation,
    owner: Owner,
    contextId: Option<string>,
    baseVersion: Option<int>,
    binding: Binding,
    messages: seq<Message>,
    ttlSeconds: Option<int>,
    idempotencyKey: string,
    requestId: string)

  datatype Options = Options(
    maxContexts: int,
    defaultTtl: int,
    maxTtl: int,
    tombstoneSeconds: int,
    idempotencyTtlMs: int,
    supported: set<Operation>,
    fingerprint: Binding -> string)

  datatype ContextState = ActiveState | ReleasedState | ExpiredState

  datatype Entry = Entry(
    owner: Owner,
    version: nat,
    state: ContextState,
    binding: Binding,
    fingerprint: string,
    transcript: seq<Message>,
    ttlSeconds: int,
    expiresAt: Option<int>,
    tombstoneUntil: Option<int>,
    reservationId: Option<string>)

  datatype Reservation = Reservation(
    id: string,
    request: Request,
    fingerprint: string,
    baseTranscript: seq<Message>,
    effectiveTtl: Option<int>,
    parentContextId: Option<string>,
    parentVersion: Option<nat>)

  datatype Receipt = Receipt(
    contextId: string,
    version: nat,
    operation: Operation,
    state: ContextState,
    expiresAt: Option<int>,
    parentContextId: Option<string>,
    parentVersion: Option<nat>)

  datatype IdemState = Busy | CompletedOutcome | FailedOutcome

  datatype Idem = Idem(
    state: IdemState,
    retainUntil: int,
    requestId: Option<string>,
    reservationId: Option<string>,
    errorCode: Option<string>,
    receipt: Option<Receipt>,
    contextId: Option<string>,
    baseVersion: Option<int>)

  datatype Store = Store(
    contexts: map<string, Entry>,
    idempotency: map<string, Idem>,
    reservations: map<string, Reservation>)

  const EMPTY := Store(map[], map[], map[])

  // ---- keys and checks ----

  const SEPARATOR: char := '\U{001F}'
  const COMPLETE_ACTION := "llm.complete"
  const RELEASE_ACTION := "llm.context.release"

  function OwnerKey(owner: Owner, action: string, key: string): string {
    owner.nid + [SEPARATOR] + owner.securityScope + [SEPARATOR] + action + [SEPARATOR] + key
  }

  function KeyOf(r: Reservation): string {
    OwnerKey(r.request.owner, COMPLETE_ACTION, r.request.idempotencyKey)
  }

  predicate Blank(s: string) {
    forall i :: 0 <= i < |s| ==> IsSpaceUnit(s[i] as int)
  }

  predicate LocatorChar(c: char) {
    'A' <= c <= 'Z' || 'a' <= c <= 'z' || '0' <= c <= '9' || c == '_' || c == '-'
  }

  predicate ValidLocator(s: string) {
    22 <= |s| <= 128 && forall i :: 0 <= i < |s| ==> LocatorChar(s[i])
  }

  function Lower(s: string): string {
    seq(|s|, i requires 0 <= i < |s| =>
      if 'A' <= s[i] <= 'Z' then (s[i] as int + 32) as char else s[i])
  }

  predicate IsSystem(m: Message) {
    Lower(m.role) == "system"
  }

  /** The checks on the request itself, in source order. */
  function RequestFault(req: Request): Option<Error> {
    if req.operation == Release then Some(ParamsInvalid)
    else if Blank(req.idempotencyKey) then Some(ParamsInvalid)
    else if req.ttlSeconds.Some? && req.ttlSeconds.value <= 0 then Some(ParamsInvalid)
    else if req.operation == Create && (req.contextId.Some? || req.baseVersion.Some?) then Some(ParamsInvalid)
    else if req.operation != Create && (req.contextId.None? || req.baseVersion.None?) then Some(ParamsInvalid)
    else if req.operation != Create && !ValidLocator(req.contextId.value) then Some(ParamsInvalid)
    else if req.operation != Fork && req.messages == [] then Some(ParamsInvalid)
    else if (req.operation == Append || req.operation == Fork) && exists m :: m in req.messages && IsSystem(m) then
      Some(BindingMismatch)
    else None
  }

  // ---- sweeping ----

  function ExpireEntry(o: Options, e: Entry, now: int): Entry {
    if e.state == ActiveState && e.reservationId.None? && e.expiresAt.Some? && e.expiresAt.value <= now then
      e.(state := ExpiredState, expiresAt := None, tombstoneUntil := Some(now + o.tombstoneSeconds * 1000))
    else e
  }

  predicate Dead(e: Entry, now: int) {
    e.state != ActiveState && e.tombstoneUntil.Some? && e.tombstoneUntil.value <= now
  }

  predicate Stale(i: Idem, now: int) {
    i.state != Busy && i.retainUntil <= now
  }

  function ExpireAll(o: Options, contexts: map<string, Entry>, now: int): map<string, Entry> {
    map c | c in contexts :: ExpireEntry(o, contexts[c], now)
  }

  function DropDead(contexts: map<string, Entry>, now: int): map<string, Entry> {
    map c | c in contexts && !Dead(contexts[c], now) :: contexts[c]
  }

  function DropStale(idempotency: map<string, Idem>, now: int): map<string, Idem> {
    map k | k in idempotency && !Stale(idempotency[k], now) :: idempotency[k]
  }

  function Swept(o: Options, s: Store, now: int): Store {
    Store(DropDead(ExpireAll(o, s.contexts, now), now), DropStale(s.idempotency, now), s.reservations)
  }

  // ---- quota ----

  function LiveOf(s: Store, owner: Owner): set<string> {
    set c | c in s.contexts && s.contexts[c].owner == owner && s.contexts[c].state == ActiveState
  }

  function PendingOf(s: Store, owner: Owner): set<string> {
    set r | r in s.reservations && s.reservations[r].request.owner == owner
            && Allocates(s.reservations[r].request.operation)
  }

  predicate AllocationAvailable(o: Options, s: Store, owner: Owner) {
    |LiveOf(s, owner)| + |PendingOf(s, owner)| < o.maxContexts
  }

  // ---- reserve ----

  function Clamp(o: Options, seconds: int): int {
    if seconds < o.maxTtl then seconds else o.maxTtl
  }

  /** Milliseconds to whole seconds, rounding up. */
  function CeilSeconds(ms: int): int {
    -((-ms) / 1000)
  }

  function EffectiveTtl(o: Options, req: Request, e: Entry, now: int): Option<int> {
    if req.ttlSeconds.Some? then Some(Clamp(o, req.ttlSeconds.value))
    else if req.operation == Fork then
      if e.expiresAt.None? then None
      else
        var left := CeilSeconds(e.expiresAt.value - now);
        Some(if left < 1 then 1 else left)
    else if e.ttlSeconds == 0 then None
    else Some(e.ttlSeconds)
  }

  function RequireMutable(s: Store, owner: Owner, contextId: string): (r: Result<Entry>)
    ensures r.Ok? ==> contextId in s.contexts && r.value == s.contexts[contextId]
                      && r.value.owner == owner && r.value.state == ActiveState
  {
    if contextId !in s.contexts then Err(NotFound)
    else
      var e := s.contexts[contextId];
      if e.owner != owner then Err(Forbidden)
      else
        match e.state
        case ExpiredState => Err(Expired(e.version))
        case ReleasedState => Err(NotFound)
        case ActiveState => Ok(e)
  }

  function CreateReservation(o: Options, req: Request, id: string): Reservation {
    var ttl := if req.ttlSeconds.Some? then req.ttlSeconds.value else o.defaultTtl;
    Reservation(id, req, o.fingerprint(req.binding), [], Some(Clamp(o, ttl)), None, None)
  }

  function MutationReservation(o: Options, req: Request, id: string, e: Entry, now: int): Reservation
    requires req.contextId.Some?
  {
    Reservation(id, req, o.fingerprint(req.binding), e.transcript, EffectiveTtl(o, req, e, now),
                if req.operation == Fork then req.contextId else None,
                if req.operation == Fork then Some(e.version) else None)
  }

  /** What a reservation is granted, against an already swept store. */
  function Grant(o: Options, s: Store, req: Request, id: string, now: int): Result<Reservation> {
    var fault := RequestFault(req);
    if fault.Some? then Err(fault.value)
    else if req.operation !in o.supported then Err(OperationUnsupported)
    else if OwnerKey(req.owner, COMPLETE_ACTION, req.idempotencyKey) in s.idempotency then Err(IdempotencyConflict)
    else if req.operation == Create then
      if AllocationAvailable(o, s, req.owner) then Ok(CreateReservation(o, req, id)) else Err(LimitExceeded)
    else
      var found := RequireMutable(s, req.owner, req.contextId.value);
      if found.Err? then Err(found.error)
      else
        var e := found.value;
        if e.reservationId.Some? || e.version != req.baseVersion.value then Err(VersionConflict(e.version))
        else if (req.operation == Append || req.operation == Fork) && e.fingerprint != o.fingerprint(req.binding) then
          Err(BindingMismatch)
        else if req.operation == Fork && !AllocationAvailable(o, s, req.owner) then Err(LimitExceeded)
        else Ok(MutationReservation(o, req, id, e, now))
  }

  predicate Locks(op: Operation) {
    op == Append || op == Reset
  }

  /** Append and reset mark the entry they will mutate. */
  function Marked(contexts: map<string, Entry>, r: Reservation): map<string, Entry> {
    if Locks(r.request.operation) && r.request.contextId.Some? && r.request.contextId.value in contexts then
      var c := r.request.contextId.value;
      contexts[c := contexts[c].(reservationId := Some(r.id))]
    else contexts
  }

  function BusyOutcome(o: Options, r: Reservation, now: int): Idem {
    Idem(Busy, now + o.idempotencyTtlMs, Some(r.request.requestId), Some(r.id), None, None, None, None)
  }

  function AddReservation(o: Options, s: Store, r: Reservation, now: int): Store {
    Store(Marked(s.contexts, r), s.idempotency[KeyOf(r) := BusyOutcome(o, r, now)], s.reservations[r.id := r])
  }

  // ---- commit ----

  function Expiry(r: Reservation, now: int): Option<int> {
    if r.effectiveTtl.None? then None else Some(now + r.effectiveTtl.value * 1000)
  }

  function TtlOf(r: Reservation): int {
    if r.effectiveTtl.None? then 0 else r.effectiveTtl.value
  }

  predicate Allocates(op: Operation) {
    op == Create || op == Fork
  }

  /** Up to eight factory outputs: the first well-formed one not in use. */
  function NextContextId(contexts: map<string, Entry>, outputs: seq<string>, attempt: nat): Result<string>
    decreases 8 - attempt
  {
    if attempt >= 8 || attempt >= |outputs| then Err(IdCollisions)
    else if !ValidLocator(outputs[attempt]) then Err(ParamsInvalid)
    else if outputs[attempt] !in contexts then Ok(outputs[attempt])
    else NextContextId(contexts, outputs, attempt + 1)
  }

  function NewTranscript(r: Reservation, existing: seq<Message>, assistant: Message): seq<Message> {
    match r.request.operation
    case Fork => r.baseTranscript + r.request.messages + [assistant]
    case Append => existing + r.request.messages + [assistant]
    case _ => r.request.messages + [assistant]
  }

  function NewEntry(r: Reservation, assistant: Message, expiry: Option<int>): Entry {
    Entry(r.request.owner, 1, ActiveState, r.request.binding, r.fingerprint,
          NewTranscript(r, [], assistant), TtlOf(r), expiry, None, None)
  }

  function MutatedEntry(e: Entry, r: Reservation, assistant: Message, expiry: Option<int>): Entry {
    e.(version := e.version + 1, state := ActiveState, reservationId := None, expiresAt := expiry,
       ttlSeconds := TtlOf(r),
       binding := if r.request.operation == Reset then r.request.binding else e.binding,
       fingerprint := if r.request.operation == Reset then r.fingerprint else e.fingerprint,
       transcript := NewTranscript(r, e.transcript, assistant))
  }

  function CompletedIdem(o: Options, r: Reservation, receipt: Receipt, now: int): Idem {
    Idem(CompletedOutcome, now + o.idempotencyTtlMs, Some(r.request.requestId), None, None, Some(receipt), None, None)
  }

  predicate IsOutstanding(s: Store, r: Reservation) {
    r.id in s.reservations && s.reservations[r.id] == r
  }

  /** Where a commit writes: a fresh context, or the reserved one. */
  function CommitTarget(s: Store, r: Reservation, outputs: seq<string>): Result<string> {
    if !IsOutstanding(s, r) then Err(ReservationInactive)
    else if Allocates(r.request.operation) then NextContextId(s.contexts, outputs, 0)
    else if r.request.contextId.None? || r.request.contextId.value !in s.contexts then Err(NotFound)
    else Ok(r.request.contextId.value)
  }

  function CommittedEntry(s: Store, r: Reservation, target: string, assistant: Message, now: int): Entry
    requires Allocates(r.request.operation) || target in s.contexts
  {
    if Allocates(r.request.operation) then NewEntry(r, assistant, Expiry(r, now))
    else MutatedEntry(s.contexts[target], r, assistant, Expiry(r, now))
  }

  function CommitReceipt(r: Reservation, target: string, e: Entry): Receipt {
    Receipt(target, e.version, r.request.operation, ActiveState, e.expiresAt, r.parentContextId, r.parentVersion)
  }

  function Committed(o: Options, s: Store, r: Reservation, target: string, assistant: Message, now: int,
                     now': int): Store
    requires Allocates(r.request.operation) || target in s.contexts
  {
    var e := CommittedEntry(s, r, target, assistant, now);
    Store(s.contexts[target := e],
          s.idempotency[KeyOf(r) := CompletedIdem(o, r, CommitReceipt(r, target, e), now')],
          s.reservations - {r.id})
  }

  // ---- abort ----

  function Cleared(contexts: map<string, Entry>, r: Reservation): map<string, Entry> {
    if r.request.contextId.Some? && r.request.contextId.value in contexts
       && contexts[r.request.contextId.value].reservationId == Some(r.id) then
      var c := r.request.contextId.value;
      contexts[c := contexts[c].(reservationId := None)]
    else contexts
  }

  function FailedIdem(o: Options, r: Reservation, errorCode: Option<string>, now: int): Idem {
    Idem(FailedOutcome, now + o.idempotencyTtlMs, Some(r.request.requestId), None, errorCode, None, None, None)
  }

  /** The store after an abort, before the sweep that ends it. */
  function Aborted(o: Options, s: Store, r: Reservation, errorCode: Option<string>, now: int): Store {
    Store(Cleared(s.contexts, r),
          s.idempotency[KeyOf(r) := FailedIdem(o, r, errorCode, now)],
          s.reservations - {r.id})
  }

  // ---- release ----

  datatype ReleaseDecision =
    | Replayed(receipt: Receipt)
    | Refused(error: Error)
    | Released(entry: Entry)

  function ReleaseFault(o: Options, s: Store, owner: Owner, contextId: string, baseVersion: int, key: string)
      : ReleaseDecision
  {
    if Release !in o.supported then Refused(OperationUnsupported)
    else if !ValidLocator(contextId) then Refused(ParamsInvalid)
    else if Blank(key) then Refused(ParamsInvalid)
    else
      var k := OwnerKey(owner, RELEASE_ACTION, key);
      if k in s.idempotency then
        var prior := s.idempotency[k];
        if prior.state == CompletedOutcome && prior.receipt.Some? && prior.contextId == Some(contextId)
           && prior.baseVersion == Some(baseVersion) then Replayed(prior.receipt.value)
        else Refused(IdempotencyConflict)
      else
        var found := RequireMutable(s, owner, contextId);
        if found.Err? then Refused(found.error)
        else if found.value.reservationId.Some? || found.value.version != baseVersion then
          Refused(VersionConflict(found.value.version))
        else Released(found.value)
  }

  function ReleasedEntry(o: Options, e: Entry, now: int): Entry {
    e.(version := e.version + 1, state := ReleasedState, expiresAt := None,
       tombstoneUntil := Some(now + o.tombstoneSeconds * 1000))
  }

  function ReleaseReceipt(contextId: string, version: nat): Receipt {
    Receipt(contextId, version, Release, ReleasedState, None, None, None)
  }

  function AfterRelease(o: Options, s: Store, owner: Owner, contextId: string, baseVersion: int, key: string,
                        e: Entry, now: int, now': int): Store
  {
    Store(s.contexts[contextId := ReleasedEntry(o, e, now)],
          s.idempotency[OwnerKey(owner, RELEASE_ACTION, key) :=
            Idem(CompletedOutcome, now' + o.idempotencyTtlMs, None, None, None,
                 Some(ReleaseReceipt(contextId, e.version + 1)), Some(contextId), Some(baseVersion))],
          s.reservations)
  }
}
