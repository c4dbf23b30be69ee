/** What every operation of the context store keeps: reservations and entries point at each
    other, idempotency keys in progress match outstanding reservations one to one, and no
    owner exceeds the quota. */
module ContextInvariants {
  import opened Common
  import opened ContextModel

  // ---- the invariants ----

  /** An outstanding append or reset holds exactly the entry it names, which is active at the
      base version with the base transcript. */
  ghost predicate HoldsEntry(s: Store, r: Reservation) {
    && r.request.contextId.Some? && r.request.contextId.value in s.contexts
    && var e := s.contexts[r.request.contextId.value];
    && e.reservationId == Some(r.id)
    && e.state == ActiveState
    && r.request.baseVersion == Some(e.version)
    && e.transcript == r.baseTranscript
    && e.owner == r.request.owner
    && (r.request.operation == Append ==> e.fingerprint == r.fingerprint)
  }

  ghost predicate WellKept(s: Store, id: string)
    requires id in s.reservations
  {
    var r := s.reservations[id];
    && r.id == id
    && r.request.operation != Release
    && (Locks(r.request.operation) ==> HoldsEntry(s, r))
  }

  /** A marked entry names an outstanding append or reset on itself. */
  ghost predicate MarkedByHolder(s: Store, c: string)
    requires c in s.contexts
  {
    s.contexts[c].reservationId.Some? ==>
      var id := s.contexts[c].reservationId.value;
      && id in s.reservations
      && Locks(s.reservations[id].request.operation)
      && s.reservations[id].request.contextId == Some(c)
  }

  ghost predicate Linked(s: Store) {
    && (forall id :: id in s.reservations ==> WellKept(s, id))
    && (forall c :: c in s.contexts ==> MarkedByHolder(s, c))
  }

  /** Keys in progress and outstanding reservations correspond one to one. */
  ghost predicate BusyMatches(s: Store) {
    && (forall id :: id in s.reservations ==> InProgress(s, s.reservations[id]))
    && (forall k :: k in s.idempotency && s.idempotency[k].state == Busy ==> HasReservation(s, k))
  }

  ghost predicate InProgress(s: Store, r: Reservation) {
    KeyOf(r) in s.idempotency && s.idempotency[KeyOf(r)].state == Busy
    && s.idempotency[KeyOf(r)].reservationId == Some(r.id)
  }

  ghost predicate HasReservation(s: Store, k: string)
    requires k in s.idempotency
  {
    var i := s.idempotency[k];
    i.reservationId.Some? && i.reservationId.value in s.reservations
    && KeyOf(s.reservations[i.reservationId.value]) == k
  }

  function Used(s: Store, owner: Owner): nat {
    |LiveOf(s, owner)| + |PendingOf(s, owner)|
  }

  ghost predicate WithinQuota(o: Options, s: Store) {
    forall owner :: Used(s, owner) <= (if o.maxContexts > 0 then o.maxContexts else 0)
  }

  ghost predicate Sound(o: Options, s: Store) {
    Linked(s) && BusyMatches(s) && WithinQuota(o, s)
  }

  lemma EmptySound(o: Options)
    ensures Sound(o, EMPTY)
  {
    forall owner ensures Used(EMPTY, owner) == 0 {
      assert LiveOf(EMPTY, owner) == {} && PendingOf(EMPTY, owner) == {};
    }
  }

  // ---- sweep ----

  /** A swept store keeps every marked entry and every reservation untouched. */
  lemma SweepKeepsReserved(o: Options, s: Store, now: int)
    requires Linked(s)
    ensures Linked(Swept(o, s, now))
  {
    var t := Swept(o, s, now);
    forall id | id in t.reservations ensures WellKept(t, id) {
      assert WellKept(s, id);
    }
    forall c | c in t.contexts ensures MarkedByHolder(t, c) {
      assert MarkedByHolder(s, c);
    }
  }

  lemma SweepKeepsBusy(o: Options, s: Store, now: int)
    requires BusyMatches(s)
    ensures BusyMatches(Swept(o, s, now))
  {
    var t := Swept(o, s, now);
    forall id | id in t.reservations ensures InProgress(t, t.reservations[id]) {
      assert InProgress(s, s.reservations[id]);
    }
    forall k | k in t.idempotency && t.idempotency[k].state == Busy ensures HasReservation(t, k) {
      assert HasReservation(s, k);
    }
  }

  lemma SweepFrees(o: Options, s: Store, now: int)
    requires WithinQuota(o, s)
    ensures WithinQuota(o, Swept(o, s, now))
  {
    var t := Swept(o, s, now);
    forall owner ensures Used(t, owner) <= Used(s, owner) {
      assert LiveOf(t, owner) <= LiveOf(s, owner);
      SubsetSize(LiveOf(t, owner), LiveOf(s, owner));
      assert PendingOf(t, owner) == PendingOf(s, owner);
    }
  }

  lemma SweepSound(o: Options, s: Store, now: int)
    requires Sound(o, s)
    ensures Sound(o, Swept(o, s, now))
  {
    SweepKeepsReserved(o, s, now);
    SweepKeepsBusy(o, s, now);
    SweepFrees(o, s, now);
  }

  // ---- reserve ----

  lemma ReserveLinked(o: Options, s: Store, req: Request, id: string, now: int, now': int)
    requires Linked(s) && id !in s.reservations
    requires Grant(o, s, req, id, now).Ok?
    ensures Linked(AddReservation(o, s, Grant(o, s, req, id, now).value, now'))
  {
    var r := Grant(o, s, req, id, now).value;
    var t := AddReservation(o, s, r, now');
    forall k | k in t.reservations ensures WellKept(t, k) {
      if k != id {
        OthersWellKept(o, s, r, now', k);
      } else {
        GrantedWellKept(o, s, req, id, now, now');
      }
    }
    forall c | c in t.contexts ensures MarkedByHolder(t, c) {
      assert MarkedByHolder(s, c);
    }
  }

  lemma GrantedWellKept(o: Options, s: Store, req: Request, id: string, now: int, now': int)
    requires Grant(o, s, req, id, now).Ok?
    ensures var t := AddReservation(o, s, Grant(o, s, req, id, now).value, now');
            id in t.reservations && WellKept(t, id)
  {
  }

  lemma OthersWellKept(o: Options, s: Store, r: Reservation, now: int, k: string)
    requires k in s.reservations && WellKept(s, k) && k != r.id
    requires Locks(r.request.operation) && r.request.contextId.Some? && r.request.contextId.value in s.contexts ==>
               s.contexts[r.request.contextId.value].reservationId.None?
    ensures WellKept(AddReservation(o, s, r, now), k)
  {
  }

  lemma ReserveBusy(o: Options, s: Store, req: Request, id: string, now: int, now': int)
    requires BusyMatches(s) && id !in s.reservations
    requires Grant(o, s, req, id, now).Ok?
    ensures BusyMatches(AddReservation(o, s, Grant(o, s, req, id, now).value, now'))
  {
    var r := Grant(o, s, req, id, now).value;
    var t := AddReservation(o, s, r, now');
    assert KeyOf(r) !in s.idempotency;
    forall k | k in t.reservations ensures InProgress(t, t.reservations[k]) {
      if k != id {
        assert InProgress(s, s.reservations[k]);
      }
    }
    forall k | k in t.idempotency && t.idempotency[k].state == Busy ensures HasReservation(t, k) {
      if k != KeyOf(r) {
        assert HasReservation(s, k);
      }
    }
  }

  lemma ReserveQuota(o: Options, s: Store, req: Request, id: string, now: int, now': int)
    requires WithinQuota(o, s) && id !in s.reservations
    requires Grant(o, s, req, id, now).Ok?
    ensures WithinQuota(o, AddReservation(o, s, Grant(o, s, req, id, now).value, now'))
  {
    var r := Grant(o, s, req, id, now).value;
    var t := AddReservation(o, s, r, now');
    forall owner ensures Used(t, owner) <= (if o.maxContexts > 0 then o.maxContexts else 0) {
      MarkingKeepsLive(s, t, r, owner);
      PendingAfterReserve(s, t, r, owner);
      assert Used(s, owner) <= (if o.maxContexts > 0 then o.maxContexts else 0);
      assert r.request == req;
      assert owner == req.owner && Allocates(req.operation) ==> AllocationAvailable(o, s, req.owner);
    }
  }

  lemma MarkingKeepsLive(s: Store, t: Store, r: Reservation, owner: Owner)
    requires t.contexts == Marked(s.contexts, r)
    ensures LiveOf(t, owner) == LiveOf(s, owner)
  {
  }

  lemma PendingAfterReserve(s: Store, t: Store, r: Reservation, owner: Owner)
    requires r.id !in s.reservations && t.reservations == s.reservations[r.id := r]
    ensures |PendingOf(t, owner)| == |PendingOf(s, owner)| +
            (if owner == r.request.owner && Allocates(r.request.operation) then 1 else 0)
  {
    PendingSetAfterReserve(s, t, r, owner);
  }

  lemma PendingSetAfterReserve(s: Store, t: Store, r: Reservation, owner: Owner)
    requires r.id !in s.reservations && t.reservations == s.reservations[r.id := r]
    ensures r.id !in PendingOf(s, owner)
    ensures PendingOf(t, owner) ==
            PendingOf(s, owner) + if owner == r.request.owner && Allocates(r.request.operation) then {r.id} else {}
  {
    forall id ensures id in PendingOf(t, owner) <==>
      id in PendingOf(s, owner) || (id == r.id && owner == r.request.owner && Allocates(r.request.operation))
    {
    }
  }

  lemma PendingAfterDrop(s: Store, t: Store, r: Reservation, owner: Owner)
    requires IsOutstanding(s, r) && t.reservations == s.reservations - {r.id}
    ensures |PendingOf(t, owner)| == |PendingOf(s, owner)| -
            (if owner == r.request.owner && Allocates(r.request.operation) then 1 else 0)
  {
    if owner == r.request.owner && Allocates(r.request.operation) {
      assert r.id in PendingOf(s, owner);
      assert PendingOf(t, owner) == PendingOf(s, owner) - {r.id};
    } else {
      assert PendingOf(t, owner) == PendingOf(s, owner);
    }
  }

  lemma LiveAfterCommit(s: Store, t: Store, r: Reservation, target: string, e: Entry, owner: Owner)
    requires t.contexts == s.contexts[target := e] && e.state == ActiveState
    requires if Allocates(r.request.operation) then target !in s.contexts && e.owner == r.request.owner
             else target in s.contexts && s.contexts[target].state == ActiveState && s.contexts[target].owner == e.owner
    ensures |LiveOf(t, owner)| == |LiveOf(s, owner)| +
            (if owner == r.request.owner && Allocates(r.request.operation) then 1 else 0)
  {
    if owner == r.request.owner && Allocates(r.request.operation) {
      LiveAdded(s, t, target, e, owner);
    } else {
      LiveUnchanged(s, t, target, e, owner);
    }
  }

  lemma LiveAdded(s: Store, t: Store, target: string, e: Entry, owner: Owner)
    requires t.contexts == s.contexts[target := e] && e.state == ActiveState && e.owner == owner
    requires target !in s.contexts
    ensures |LiveOf(t, owner)| == |LiveOf(s, owner)| + 1
  {
    assert LiveOf(t, owner) == LiveOf(s, owner) + {target};
  }

  lemma LiveUnchanged(s: Store, t: Store, target: string, e: Entry, owner: Owner)
    requires t.contexts == s.contexts[target := e]
    requires (e.state == ActiveState && e.owner == owner) <==>
             (target in s.contexts && s.contexts[target].state == ActiveState && s.contexts[target].owner == owner)
    ensures LiveOf(t, owner) == LiveOf(s, owner)
  {
  }

  lemma ReserveSound(o: Options, s: Store, req: Request, id: string, now: int, now': int)
    requires Sound(o, s) && id !in s.reservations
    requires Grant(o, s, req, id, now).Ok?
    ensures Sound(o, AddReservation(o, s, Grant(o, s, req, id, now).value, now'))
  {
    ReserveLinked(o, s, req, id, now, now');
    ReserveBusy(o, s, req, id, now, now');
    ReserveQuota(o, s, req, id, now, now');
  }

  // ---- commit ----

  /** An outstanding append or reset can always be committed: its entry is still there, still
      active, still at the version it was reserved at. */
  lemma CommitFindsEntry(o: Options, s: Store, r: Reservation, outputs: seq<string>)
    requires Linked(s) && IsOutstanding(s, r) && Locks(r.request.operation)
    ensures CommitTarget(s, r, outputs) == Ok(r.request.contextId.value)
    ensures s.contexts[r.request.contextId.value].state == ActiveState
    ensures s.contexts[r.request.contextId.value].version == r.request.baseVersion.value
  {
    assert WellKept(s, r.id);
  }

  lemma {:induction false} NextIdFresh(contexts: map<string, Entry>, outputs: seq<string>, attempt: nat)
    ensures NextContextId(contexts, outputs, attempt).Ok? ==>
              var c := NextContextId(contexts, outputs, attempt).value;
              c !in contexts && ValidLocator(c) && c in outputs
    decreases 8 - attempt
  {
    if attempt < 8 && attempt < |outputs| && ValidLocator(outputs[attempt]) && outputs[attempt] in contexts {
      NextIdFresh(contexts, outputs, attempt + 1);
    }
  }

  lemma CommitLinked(o: Options, s: Store, r: Reservation, outputs: seq<string>, assistant: Message, now: int,
                     now': int)
    requires Linked(s) && CommitTarget(s, r, outputs).Ok?
    ensures Linked(Committed(o, s, r, CommitTarget(s, r, outputs).value, assistant, now, now'))
  {
    var target := CommitTarget(s, r, outputs).value;
    var t := Committed(o, s, r, target, assistant, now, now');
    NextIdFresh(s.contexts, outputs, 0);
    assert WellKept(s, r.id);
    forall id | id in t.reservations ensures WellKept(t, id) {
      assert WellKept(s, id);
      OnlyHolder(s, id, r, target);
    }
    forall c | c in t.contexts ensures MarkedByHolder(t, c) {
      if c != target {
        assert MarkedByHolder(s, c);
        NotMarking(s, c, r, target);
      }
    }
  }

  /** Two outstanding reservations never hold the same entry. */
  lemma OnlyHolder(s: Store, id: string, r: Reservation, target: string)
    requires Linked(s) && id in s.reservations && IsOutstanding(s, r) && id != r.id
    requires target !in s.contexts || (Locks(r.request.operation) && r.request.contextId == Some(target))
    ensures Locks(s.reservations[id].request.operation) ==> s.reservations[id].request.contextId != Some(target)
  {
    assert WellKept(s, id) && WellKept(s, r.id);
  }

  lemma NotMarking(s: Store, c: string, r: Reservation, target: string)
    requires Linked(s) && c in s.contexts && c != target && IsOutstanding(s, r)
    requires target !in s.contexts || (Locks(r.request.operation) && r.request.contextId == Some(target))
    requires target !in s.contexts ==> Allocates(r.request.operation)
    ensures s.contexts[c].reservationId != Some(r.id)
  {
    assert MarkedByHolder(s, c);
  }

  lemma DropBusy(s: Store, t: Store, r: Reservation)
    requires BusyMatches(s) && IsOutstanding(s, r)
    requires t.reservations == s.reservations - {r.id}
    requires KeyOf(r) in t.idempotency && t.idempotency[KeyOf(r)].state != Busy
    requires t.idempotency == s.idempotency[KeyOf(r) := t.idempotency[KeyOf(r)]]
    requires forall id :: id in s.reservations ==> s.reservations[id].id == id
    ensures BusyMatches(t)
  {
    assert InProgress(s, r);
    forall id | id in t.reservations ensures InProgress(t, t.reservations[id]) {
      assert InProgress(s, s.reservations[id]);
      assert KeyOf(s.reservations[id]) != KeyOf(r);
    }
    forall k | k in t.idempotency && t.idempotency[k].state == Busy ensures HasReservation(t, k) {
      assert HasReservation(s, k);
      assert s.idempotency[k].reservationId != Some(r.id);
    }
  }

  lemma CommitQuota(o: Options, s: Store, r: Reservation, outputs: seq<string>, assistant: Message, now: int, now': int)
    requires WithinQuota(o, s) && Linked(s) && CommitTarget(s, r, outputs).Ok?
    ensures WithinQuota(o, Committed(o, s, r, CommitTarget(s, r, outputs).value, assistant, now, now'))
  {
    var target := CommitTarget(s, r, outputs).value;
    var t := Committed(o, s, r, target, assistant, now, now');
    NextIdFresh(s.contexts, outputs, 0);
    assert WellKept(s, r.id);
    forall owner ensures Used(t, owner) <= Used(s, owner) {
      PendingAfterDrop(s, t, r, owner);
      LiveAfterCommit(s, t, r, target, t.contexts[target], owner);
    }
  }

  lemma CommitSound(o: Options, s: Store, r: Reservation, outputs: seq<string>, assistant: Message, now: int, now': int)
    requires Sound(o, s) && CommitTarget(s, r, outputs).Ok?
    ensures Sound(o, Committed(o, s, r, CommitTarget(s, r, outputs).value, assistant, now, now'))
  {
    var t := Committed(o, s, r, CommitTarget(s, r, outputs).value, assistant, now, now');
    CommitLinked(o, s, r, outputs, assistant, now, now');
    CommitQuota(o, s, r, outputs, assistant, now, now');
    forall id | id in s.reservations ensures s.reservations[id].id == id {
      assert WellKept(s, id);
    }
    DropBusy(s, t, r);
  }

  // ---- abort ----

  lemma AbortLinked(o: Options, s: Store, r: Reservation, code: Option<string>, now: int)
    requires Linked(s) && IsOutstanding(s, r)
    ensures Linked(Aborted(o, s, r, code, now))
  {
    var t := Aborted(o, s, r, code, now);
    assert WellKept(s, r.id);
    forall id | id in t.reservations ensures WellKept(t, id) {
      assert WellKept(s, id);
    }
    forall c | c in t.contexts ensures MarkedByHolder(t, c) {
      assert MarkedByHolder(s, c);
    }
  }

  lemma AbortQuota(o: Options, s: Store, r: Reservation, code: Option<string>, now: int)
    requires WithinQuota(o, s) && IsOutstanding(s, r)
    ensures WithinQuota(o, Aborted(o, s, r, code, now))
  {
    var t := Aborted(o, s, r, code, now);
    forall owner ensures Used(t, owner) <= Used(s, owner) {
      assert LiveOf(t, owner) == LiveOf(s, owner);
      assert PendingOf(t, owner) <= PendingOf(s, owner);
      SubsetSize(PendingOf(t, owner), PendingOf(s, owner));
    }
  }

  lemma AbortSound(o: Options, s: Store, r: Reservation, code: Option<string>, now: int)
    requires Sound(o, s) && IsOutstanding(s, r)
    ensures Sound(o, Aborted(o, s, r, code, now))
  {
    AbortLinked(o, s, r, code, now);
    AbortQuota(o, s, r, code, now);
    forall id | id in s.reservations ensures s.reservations[id].id == id {
      assert WellKept(s, id);
    }
    DropBusy(s, Aborted(o, s, r, code, now), r);
  }

  // ---- release ----

  lemma ReleaseSound(o: Options, s: Store, owner: Owner, contextId: string, baseVersion: int, key: string, now: int,
                     now': int)
    requires Sound(o, s) && ReleaseFault(o, s, owner, contextId, baseVersion, key).Released?
    ensures Sound(o, AfterRelease(o, s, owner, contextId, baseVersion, key,
                                  ReleaseFault(o, s, owner, contextId, baseVersion, key).entry, now, now'))
  {
    var e := ReleaseFault(o, s, owner, contextId, baseVersion, key).entry;
    var t := AfterRelease(o, s, owner, contextId, baseVersion, key, e, now, now');
    assert e == s.contexts[contextId] && e.reservationId.None?;
    forall id | id in t.reservations ensures WellKept(t, id) {
      assert WellKept(s, id);
    }
    forall c | c in t.contexts ensures MarkedByHolder(t, c) {
      assert MarkedByHolder(s, c);
    }
    ReleaseBusy(o, s, owner, contextId, baseVersion, key, now, now');
    forall w ensures Used(t, w) <= Used(s, w) {
      assert LiveOf(t, w) <= LiveOf(s, w);
      SubsetSize(LiveOf(t, w), LiveOf(s, w));
      assert PendingOf(t, w) == PendingOf(s, w);
    }
  }

  lemma ReleaseBusy(o: Options, s: Store, owner: Owner, contextId: string, baseVersion: int, key: string, now: int,
                    now': int)
    requires BusyMatches(s) && ReleaseFault(o, s, owner, contextId, baseVersion, key).Released?
    ensures BusyMatches(AfterRelease(o, s, owner, contextId, baseVersion, key,
                                     ReleaseFault(o, s, owner, contextId, baseVersion, key).entry, now, now'))
  {
    var e := ReleaseFault(o, s, owner, contextId, baseVersion, key).entry;
    var t := AfterRelease(o, s, owner, contextId, baseVersion, key, e, now, now');
    assert OwnerKey(owner, RELEASE_ACTION, key) !in s.idempotency;
    forall id | id in t.reservations ensures InProgress(t, t.reservations[id]) {
      assert InProgress(s, s.reservations[id]);
    }
    forall k | k in t.idempotency && t.idempotency[k].state == Busy ensures HasReservation(t, k) {
      assert HasReservation(s, k);
    }
  }
}
