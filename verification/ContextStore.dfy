/** `InMemoryLlmContextStore`: the class, each method proved against the functions of
    `ContextModel`, so that a run of method calls is a run in the sense of `ContextHistory`.
    Clock readings are parameters in the order the source takes them. */
module ContextStore {
  import opened Common
  import opened ContextModel
  import opened ContextInvariants

  /** One successful resolution of a reservation. */
  datatype Resolved =
    | ByCommit(r: Reservation, assistant: Message, receipt: Receipt)
    | ByAbort(r: Reservation, code: Option<string>)

  class InMemoryLlmContextStore {
    const options: Options
    var contexts: map<string, Entry>
    var idempotency: map<string, Idem>
    var reservations: map<string, Reservation>

    /** History: every reservation that was resolved, in order. */
    ghost var resolutions: seq<Resolved>

    ghost function State(): Store
      reads this
    {
      Store(contexts, idempotency, reservations)
    }

    ghost predicate Valid()
      reads this
    {
      Sound(options, State())
    }

    constructor (options: Options)
      ensures this.options == options && State() == EMPTY && Valid() && resolutions == []
    {
      this.options := options;
      contexts, idempotency, reservations, resolutions := map[], map[], map[], [];
      new;
      EmptySound(options);
    }

    /** Expire, drop tombstones that ran out, drop outcomes past their retention; count all. */
    method Sweep(now: int) returns (changed: nat)
      modifies this`contexts, this`idempotency
      ensures State() == Swept(options, old(State()), now)
      ensures changed == |Expiring(old(contexts), now)| + |Dying(ExpireAll(options, old(contexts), now), now)|
                         + |Forgotten(old(idempotency), now)|
      ensures old(Valid()) ==> Valid()
    {
      ghost var before := State();
      if Sound(options, before) {
        SweepSound(options, before, now);
      }
      var expired, expiredCount := ExpireLoop(options, contexts, now);
      contexts := expired;
      var kept, droppedCount := DropLoop(contexts, now);
      contexts := kept;
      var retained, forgottenCount := ForgetLoop(idempotency, now);
      idempotency := retained;
      changed := expiredCount + droppedCount + forgottenCount;
    }

    method Reserve(req: Request, id: string, now0: int, now1: int, now2: int) returns (result: Result<Reservation>)
      requires Valid() && id !in reservations
      modifies this`contexts, this`idempotency, this`reservations
      ensures Valid()
      ensures var s := Swept(options, old(State()), now0);
              result == Grant(options, s, req, id, now1)
              && State() == if result.Ok? then AddReservation(options, s, result.value, now2) else s
    {
      var _ := Sweep(now0);
      ghost var swept := State();
      result := DecideReserve(req, id, now1);
      if result.Err? {
        return;
      }
      var reservation := result.value;
      if req.operation == Append || req.operation == Reset {
        var contextId := req.contextId.value;
        contexts := contexts[contextId := contexts[contextId].(reservationId := Some(id))];
      }
      reservations := reservations[id := reservation];
      idempotency := idempotency[KeyOf(reservation) := BusyOutcome(options, reservation, now2)];
      GrantShape(options, swept, req, id, now1);
      ReserveSound(options, swept, req, id, now1, now2);
    }

    /** The checks of a reservation, in source order, and what it would be granted. */
    method DecideReserve(req: Request, id: string, now: int) returns (result: Result<Reservation>)
      ensures result == Grant(options, State(), req, id, now)
    {
      var fault := RequestFault(req);
      if fault.Some? {
        return Err(fault.value);
      }
      if req.operation !in options.supported {
        return Err(OperationUnsupported);
      }
      if OwnerKey(req.owner, COMPLETE_ACTION, req.idempotencyKey) in idempotency {
        return Err(IdempotencyConflict);
      }
      if req.operation == Create {
        var available := EnsureAllocationAvailable(req.owner);
        return if available then Ok(CreateReservation(options, req, id)) else Err(LimitExceeded);
      }
      var found := FindMutable(req.owner, req.contextId.value);
      if found.Err? {
        return Err(found.error);
      }
      var entry := found.value;
      if entry.reservationId.Some? || entry.version != req.baseVersion.value {
        return Err(VersionConflict(entry.version));
      }
      if (req.operation == Append || req.operation == Fork) && entry.fingerprint != options.fingerprint(req.binding) {
        return Err(BindingMismatch);
      }
      if req.operation == Fork {
        var available := EnsureAllocationAvailable(req.owner);
        if !available {
          return Err(LimitExceeded);
        }
      }
      return Ok(MutationReservation(options, req, id, entry, now));
    }

    /** `requireMutable`: the active entry, if the owner holds one under that identifier. */
    method FindMutable(owner: Owner, contextId: string) returns (result: Result<Entry>)
      ensures result == RequireMutable(State(), owner, contextId)
    {
      if contextId !in contexts {
        return Err(NotFound);
      }
      var entry := contexts[contextId];
      if entry.owner != owner {
        return Err(Forbidden);
      }
      if entry.state == ExpiredState {
        return Err(Expired(entry.version));
      }
      if entry.state == ReleasedState {
        return Err(NotFound);
      }
      return Ok(entry);
    }

    method EnsureAllocationAvailable(owner: Owner) returns (available: bool)
      ensures available <==> AllocationAvailable(options, State(), owner)
    {
      var live := set c | c in contexts && contexts[c].owner == owner && contexts[c].state == ActiveState;
      var pending := set r | r in reservations && reservations[r].request.owner == owner
                             && Allocates(reservations[r].request.operation);
      assert live == LiveOf(State(), owner) && pending == PendingOf(State(), owner);
      available := |live| + |pending| < options.maxContexts;
    }

    /** At most eight tries; `outputs` are what the factory returns, in order. */
    method NextContextIdFrom(outputs: seq<string>) returns (result: Result<string>)
      ensures result == NextContextId(contexts, outputs, 0)
    {
      var attempt := 0;
      while attempt < 8 && attempt < |outputs|
        invariant 0 <= attempt <= 8
        invariant NextContextId(contexts, outputs, 0) == NextContextId(contexts, outputs, attempt)
      {
        if !ValidLocator(outputs[attempt]) {
          return Err(ParamsInvalid);
        }
        if outputs[attempt] !in contexts {
          return Ok(outputs[attempt]);
        }
        attempt := attempt + 1;
      }
      return Err(IdCollisions);
    }

    method Commit(r: Reservation, assistant: Message, now0: int, now1: int, outputs: seq<string>)
        returns (result: Result<Receipt>)
      requires Valid()
      modifies this
      ensures Valid()
      ensures var target := CommitTarget(old(State()), r, outputs);
              if target.Ok? then
                && State() == Committed(options, old(State()), r, target.value, assistant, now0, now1)
                && result == Ok(CommitReceipt(r, target.value, State().contexts[target.value]))
              else State() == old(State()) && result == Err(target.error)
      ensures resolutions == old(resolutions) + if result.Ok? then [ByCommit(r, assistant, result.value)] else []
    {
      ghost var before := State();
      if r.id !in reservations || reservations[r.id] != r {
        return Err(ReservationInactive);
      }
      var expiry := Expiry(r, now0);
      var target: string;
      var entry: Entry;
      if r.request.operation == Create || r.request.operation == Fork {
        var next := NextContextIdFrom(outputs);
        if next.Err? {
          return Err(next.error);
        }
        target := next.value;
        entry := NewEntry(r, assistant, expiry);
      } else {
        if r.request.contextId.None? || r.request.contextId.value !in contexts {
          return Err(NotFound);
        }
        target := r.request.contextId.value;
        entry := MutatedEntry(contexts[target], r, assistant, expiry);
      }
      CommitSound(options, before, r, outputs, assistant, now0, now1);
      contexts := contexts[target := entry];
      var receipt := CommitReceipt(r, target, entry);
      idempotency := idempotency[KeyOf(r) := CompletedIdem(options, r, receipt, now1)];
      reservations := reservations - {r.id};
      resolutions := resolutions + [ByCommit(r, assistant, receipt)];
      return Ok(receipt);
    }

    method Abort(r: Reservation, code: Option<string>, now0: int, now1: int) returns (ok: bool)
      requires Valid()
      modifies this
      ensures Valid()
      ensures ok <==> IsOutstanding(old(State()), r)
      ensures State() ==
                if ok then Swept(options, Aborted(options, old(State()), r, code, now0), now1) else old(State())
      ensures resolutions == old(resolutions) + if ok then [ByAbort(r, code)] else []
    {
      ghost var before := State();
      if r.id !in reservations || reservations[r.id] != r {
        return false;
      }
      AbortSound(options, before, r, code, now0);
      if r.request.contextId.Some? && r.request.contextId.value in contexts
         && contexts[r.request.contextId.value].reservationId == Some(r.id) {
        var c := r.request.contextId.value;
        contexts := contexts[c := contexts[c].(reservationId := None)];
      }
      reservations := reservations - {r.id};
      idempotency := idempotency[KeyOf(r) := FailedIdem(options, r, code, now0)];
      assert State() == Aborted(options, before, r, code, now0);
      resolutions := resolutions + [ByAbort(r, code)];
      var _ := Sweep(now1);
      return true;
    }

    method Release(owner: Owner, contextId: string, baseVersion: int, key: string, now0: int, now1: int, now2: int)
        returns (result: Result<Receipt>)
      requires Valid()
      modifies this`contexts, this`idempotency
      ensures Valid()
      ensures var s := Swept(options, old(State()), now0);
              match ReleaseFault(options, s, owner, contextId, baseVersion, key)
              case Replayed(receipt) => State() == s && result == Ok(receipt)
              case Refused(error) => State() == s && result == Err(error)
              case Released(e) =>
                && State() == AfterRelease(options, s, owner, contextId, baseVersion, key, e, now1, now2)
                && result == Ok(ReleaseReceipt(contextId, e.version + 1))
    {
      var _ := Sweep(now0);
      ghost var swept := State();
      var decision := DecideRelease(owner, contextId, baseVersion, key);
      if decision.Replayed? {
        return Ok(decision.receipt);
      }
      if decision.Refused? {
        return Err(decision.error);
      }
      var entry := decision.entry;
      ReleaseSound(options, swept, owner, contextId, baseVersion, key, now1, now2);
      var receipt := RecordRelease(owner, contextId, baseVersion, key, entry, now1, now2);
      return Ok(receipt);
    }

    /** The writes of a release that passed its checks. */
    method RecordRelease(owner: Owner, contextId: string, baseVersion: int, key: string, entry: Entry, now1: int,
                         now2: int)
        returns (receipt: Receipt)
      modifies this`contexts, this`idempotency
      ensures State() == AfterRelease(options, old(State()), owner, contextId, baseVersion, key, entry, now1, now2)
      ensures receipt == ReleaseReceipt(contextId, entry.version + 1)
    {
      contexts := contexts[contextId := ReleasedEntry(options, entry, now1)];
      receipt := ReleaseReceipt(contextId, entry.version + 1);
      idempotency := idempotency[OwnerKey(owner, RELEASE_ACTION, key) :=
        Idem(CompletedOutcome, now2 + options.idempotencyTtlMs, None, None, None,
             Some(receipt), Some(contextId), Some(baseVersion))];
    }

    /** The checks of a release, in source order. */
    method DecideRelease(owner: Owner, contextId: string, baseVersion: int, key: string)
        returns (decision: ReleaseDecision)
      ensures decision == ReleaseFault(options, State(), owner, contextId, baseVersion, key)
    {
      if Operation.Release !in options.supported {
        return Refused(OperationUnsupported);
      }
      if !ValidLocator(contextId) || Blank(key) {
        return Refused(ParamsInvalid);
      }
      var idemKey := OwnerKey(owner, RELEASE_ACTION, key);
      if idemKey in idempotency {
        var prior := idempotency[idemKey];
        if prior.state == CompletedOutcome && prior.receipt.Some? && prior.contextId == Some(contextId)
           && prior.baseVersion == Some(baseVersion) {
          return Replayed(prior.receipt.value);
        }
        return Refused(IdempotencyConflict);
      }
      var found := FindMutable(owner, contextId);
      if found.Err? {
        return Refused(found.error);
      }
      if found.value.reservationId.Some? || found.value.version != baseVersion {
        return Refused(VersionConflict(found.value.version));
      }
      return Released(found.value);
    }
  }

  /** What a granted reservation carries of its request. */
  lemma GrantShape(o: Options, s: Store, req: Request, id: string, now: int)
    requires Grant(o, s, req, id, now).Ok?
    ensures var r := Grant(o, s, req, id, now).value;
            && r.id == id && r.request == req
            && KeyOf(r) == OwnerKey(req.owner, COMPLETE_ACTION, req.idempotencyKey)
            && (Locks(req.operation) ==> req.contextId.Some? && req.contextId.value in s.contexts)
  {
  }

  // ---- the three sweeping loops ----

  predicate Expires(e: Entry, now: int) {
    e.state == ActiveState && e.reservationId.None? && e.expiresAt.Some? && e.expiresAt.value <= now
  }

  function Expiring(contexts: map<string, Entry>, now: int): set<string> {
    set c | c in contexts && Expires(contexts[c], now)
  }

  function Dying(contexts: map<string, Entry>, now: int): set<string> {
    set c | c in contexts && Dead(contexts[c], now)
  }

  function Forgotten(idempotency: map<string, Idem>, now: int): set<string> {
    set k | k in idempotency && Stale(idempotency[k], now)
  }

  method ExpireLoop(o: Options, contexts: map<string, Entry>, now: int) returns (r: map<string, Entry>, changed: nat)
    ensures r == ExpireAll(o, contexts, now) && changed == |Expiring(contexts, now)|
  {
    r, changed := contexts, 0;
    var todo := contexts.Keys;
    ghost var hit: set<string> := {};
    while todo != {}
      invariant todo <= contexts.Keys && r.Keys == contexts.Keys
      invariant forall c :: c in contexts ==>
                r[c] == if c in todo then contexts[c] else ExpireEntry(o, contexts[c], now)
      invariant hit == (set c | c in contexts && c !in todo && Expires(contexts[c], now)) && changed == |hit|
      decreases todo
    {
      var c :| c in todo;
      todo := todo - {c};
      if Expires(r[c], now) {
        r := r[c := r[c].(state := ExpiredState, expiresAt := None,
                          tombstoneUntil := Some(now + o.tombstoneSeconds * 1000))];
        changed := changed + 1;
        hit := hit + {c};
      }
    }
    assert hit == Expiring(contexts, now);
  }

  method DropLoop(contexts: map<string, Entry>, now: int) returns (r: map<string, Entry>, changed: nat)
    ensures r == DropDead(contexts, now) && changed == |Dying(contexts, now)|
  {
    r, changed := contexts, 0;
    var todo := contexts.Keys;
    ghost var hit: set<string> := {};
    while todo != {}
      invariant todo <= contexts.Keys
      invariant r == map c | c in contexts && (c in todo || !Dead(contexts[c], now)) :: contexts[c]
      invariant hit == (set c | c in contexts && c !in todo && Dead(contexts[c], now)) && changed == |hit|
      decreases todo
    {
      var c :| c in todo;
      todo := todo - {c};
      if Dead(contexts[c], now) {
        r := r - {c};
        changed := changed + 1;
        hit := hit + {c};
      }
    }
    assert hit == Dying(contexts, now);
  }

  method ForgetLoop(idempotency: map<string, Idem>, now: int) returns (r: map<string, Idem>, changed: nat)
    ensures r == DropStale(idempotency, now) && changed == |Forgotten(idempotency, now)|
  {
    r, changed := idempotency, 0;
    var todo := idempotency.Keys;
    ghost var hit: set<string> := {};
    while todo != {}
      invariant todo <= idempotency.Keys
      invariant r == map k | k in idempotency && (k in todo || !Stale(idempotency[k], now)) :: idempotency[k]
      invariant hit == (set k | k in idempotency && k !in todo && Stale(idempotency[k], now)) && changed == |hit|
      decreases todo
    {
      var k :| k in todo;
      todo := todo - {k};
      if Stale(idempotency[k], now) {
        r := r - {k};
        changed := changed + 1;
        hit := hit + {k};
      }
    }
    assert hit == Forgotten(idempotency, now);
  }
}
