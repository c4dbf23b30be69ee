/** The context store over whole runs. A world is the store together with what the outside
    has seen of it: every committed version of every context, every mutation receipt in
    order, and every reservation identifier ever issued. */
module ContextHistory {
  import opened Common
  import opened ContextModel
  import opened ContextInvariants

  datatype Version = Version(operation: Operation, transcript: seq<Message>, fingerprint: string)

  type History = map<string, seq<Version>>

  /** A mutation as its caller saw it: the receipt and the messages it added. */
  datatype Mutation = Mutation(receipt: Receipt, delta: seq<Message>)

  datatype World = World(s: Store, history: History, log: seq<Mutation>, issued: set<string>)

  const START := World(EMPTY, map[], [], {})

  datatype Call =
    | ReserveCall(req: Request, id: string, now0: int, now1: int, now2: int)
    | CommitCall(r: Reservation, assistant: Message, now0: int, now1: int, outputs: seq<string>)
    | AbortCall(r: Reservation, code: Option<string>, now0: int, now1: int)
    | ReleaseCall(owner: Owner, contextId: string, baseVersion: int, key: string, now0: int, now1: int, now2: int)
    | SweepCall(now0: int)

  function Recorded(h: History, c: string, v: Version): History {
    h[c := (if c in h then h[c] else []) + [v]]
  }

  function VersionOf(op: Operation, e: Entry): Version {
    Version(op, e.transcript, e.fingerprint)
  }

  function Delta(r: Reservation, assistant: Message): seq<Message> {
    r.request.messages + [assistant]
  }

  function ApplyCommit(o: Options, w: World, r: Reservation, assistant: Message, now: int, now': int,
                       target: string): World
    requires Allocates(r.request.operation) || target in w.s.contexts
  {
    var e := CommittedEntry(w.s, r, target, assistant, now);
    World(Committed(o, w.s, r, target, assistant, now, now'),
          Recorded(w.history, target, VersionOf(r.request.operation, e)),
          w.log + [Mutation(CommitReceipt(r, target, e), Delta(r, assistant))],
          w.issued)
  }

  function ApplyRelease(o: Options, w: World, owner: Owner, contextId: string, baseVersion: int, key: string,
                        e: Entry, now: int, now': int): World
  {
    World(AfterRelease(o, w.s, owner, contextId, baseVersion, key, e, now, now'),
          Recorded(w.history, contextId, VersionOf(Release, e)),
          w.log + [Mutation(ReleaseReceipt(contextId, e.version + 1), [])],
          w.issued)
  }

  /** One call. A call that throws leaves at most a sweep behind. */
  function Apply(o: Options, w: World, call: Call): World {
    match call
    case ReserveCall(req, id, now0, now1, now2) =>
      var s := Swept(o, w.s, now0);
      var granted := Grant(o, s, req, id, now1);
      if granted.Ok? then
        World(AddReservation(o, s, granted.value, now2), w.history, w.log, w.issued + {id})
      else w.(s := s)
    case CommitCall(r, assistant, now0, now1, outputs) =>
      var target := CommitTarget(w.s, r, outputs);
      if target.Ok? then ApplyCommit(o, w, r, assistant, now0, now1, target.value) else w
    case AbortCall(r, code, now0, now1) =>
      if IsOutstanding(w.s, r) then w.(s := Swept(o, Aborted(o, w.s, r, code, now0), now1)) else w
    case ReleaseCall(owner, contextId, baseVersion, key, now0, now1, now2) =>
      var w0 := w.(s := Swept(o, w.s, now0));
      var decision := ReleaseFault(o, w0.s, owner, contextId, baseVersion, key);
      if decision.Released? then ApplyRelease(o, w0, owner, contextId, baseVersion, key, decision.entry, now1, now2)
      else w0
    case SweepCall(now0) => w.(s := Swept(o, w.s, now0))
  }

  /** The two sources of identifiers do not repeat themselves: a reservation id is new, and
      the factory never returns the id of a context that existed and is gone. */
  ghost predicate Allowed(w: World, call: Call) {
    && (call.ReserveCall? ==> call.id !in w.issued)
    && (call.CommitCall? ==> forall c :: c in call.outputs && c in w.history ==> c in w.s.contexts)
  }

  function WorldAfter(o: Options, calls: seq<Call>): World {
    if calls == [] then START
    else Apply(o, WorldAfter(o, calls[..|calls| - 1]), calls[|calls| - 1])
  }

  ghost predicate AllAllowed(o: Options, calls: seq<Call>) {
    forall i :: 0 <= i < |calls| ==> AllowedAt(o, calls, i)
  }

  ghost predicate AllowedAt(o: Options, calls: seq<Call>, i: nat)
    requires i < |calls|
  {
    Allowed(WorldAfter(o, calls[..i]), calls[i])
  }

  // ---- invariants ----

  /** The stored entry is the newest version of its context. */
  ghost predicate Newest(e: Entry, versions: seq<Version>) {
    && |versions| == e.version && e.version >= 1
    && versions[e.version - 1].transcript == e.transcript
    && versions[e.version - 1].fingerprint == e.fingerprint
    && (e.state != ReleasedState ==> versions[e.version - 1].operation != Release)
  }

  ghost predicate Remembered(s: Store, h: History) {
    forall c :: c in s.contexts ==> c in h && Newest(s.contexts[c], h[c])
  }

  /** `transcript` under `fingerprint` was the state of context `c` at version `v`. */
  ghost predicate WasState(h: History, c: string, v: nat, transcript: seq<Message>, fingerprint: string) {
    && c in h && 1 <= v <= |h[c]|
    && h[c][v - 1].transcript == transcript
    && h[c][v - 1].fingerprint == fingerprint
    && h[c][v - 1].operation != Release
  }

  ghost predicate ParentKnown(h: History, r: Reservation) {
    if r.request.operation == Fork then
      r.parentContextId.Some? && r.parentVersion.Some? &&
      WasState(h, r.parentContextId.value, r.parentVersion.value, r.baseTranscript, r.fingerprint)
    else r.parentContextId.None? && r.parentVersion.None?
  }

  ghost predicate ParentsKnown(s: Store, h: History) {
    forall id :: id in s.reservations ==> ParentKnown(h, s.reservations[id])
  }

  /** How one version follows from the one before it. */
  ghost predicate Follows(before: Version, after: Version) {
    && (after.operation == Append || after.operation == Reset || after.operation == Release)
    && before.operation != Release
    && (after.operation == Append ==> before.transcript < after.transcript && after.fingerprint == before.fingerprint)
    && (after.operation == Release ==> after.transcript == before.transcript && after.fingerprint == before.fingerprint)
  }

  ghost predicate Chain(versions: seq<Version>) {
    && versions != [] && Allocates(versions[0].operation)
    && (forall v :: 0 < v < |versions| ==> Follows(versions[v - 1], versions[v]))
  }

  ghost predicate Chained(h: History) {
    forall c :: c in h ==> Chain(h[c])
  }

  /** How many of the mutations wrote to context `c`. */
  function Writes(log: seq<Mutation>, c: string): nat {
    if log == [] then 0
    else Writes(log[..|log| - 1], c) + (if log[|log| - 1].receipt.contextId == c then 1 else 0)
  }

  /** A receipt tells the truth about the version it names. */
  ghost predicate Truthful(h: History, m: Mutation) {
    var c := m.receipt.contextId;
    && c in h && 1 <= m.receipt.version <= |h[c]|
    && var v := h[c][m.receipt.version - 1];
    && v.operation == m.receipt.operation
    && match m.receipt.operation
       case Create => v.transcript == m.delta
       case Reset => v.transcript == m.delta
       case Append => m.receipt.version >= 2 && v.transcript == h[c][m.receipt.version - 2].transcript + m.delta
       case Release => m.receipt.version >= 2 && v.transcript == h[c][m.receipt.version - 2].transcript
       case Fork =>
         && m.receipt.parentContextId.Some? && m.receipt.parentVersion.Some?
         && m.receipt.parentContextId.value in h
         && 1 <= m.receipt.parentVersion.value <= |h[m.receipt.parentContextId.value]|
         && var parent := h[m.receipt.parentContextId.value][m.receipt.parentVersion.value - 1];
         && v.transcript == parent.transcript + m.delta
         && v.fingerprint == parent.fingerprint && parent.operation != Release
  }

  ghost predicate Logged(h: History, log: seq<Mutation>) {
    && (forall i :: 0 <= i < |log| ==> Truthful(h, log[i]))
    && (forall i :: 0 <= i < |log| ==> log[i].receipt.version == Writes(log[..i], log[i].receipt.contextId) + 1)
    && (forall c :: Writes(log, c) == if c in h then |h[c]| else 0)
  }

  ghost predicate Historic(o: Options, w: World) {
    && Sound(o, w.s)
    && Remembered(w.s, w.history) && ParentsKnown(w.s, w.history)
    && Chained(w.history) && Logged(w.history, w.log)
    && w.s.reservations.Keys <= w.issued
  }

  // ---- history only grows ----

  ghost predicate Grown(h: History, h': History) {
    forall c :: c in h ==> c in h' && h[c] <= h'[c]
  }

  lemma RecordedGrows(h: History, c: string, v: Version)
    ensures Grown(h, Recorded(h, c, v))
  {
  }

  lemma ParentStays(h: History, h': History, r: Reservation)
    requires Grown(h, h') && ParentKnown(h, r)
    ensures ParentKnown(h', r)
  {
    if r.request.operation == Fork {
      var c := r.parentContextId.value;
      assert h[c] <= h'[c];
    }
  }

  lemma TruthStays(h: History, h': History, m: Mutation)
    requires Grown(h, h') && Truthful(h, m)
    ensures Truthful(h', m)
  {
    assert h[m.receipt.contextId] <= h'[m.receipt.contextId];
    if m.receipt.operation == Fork {
      assert h[m.receipt.parentContextId.value] <= h'[m.receipt.parentContextId.value];
    }
  }

  lemma ChainExtends(h: History, c: string, v: Version)
    requires Chained(h)
    requires if c in h then Follows(h[c][|h[c]| - 1], v) else Allocates(v.operation)
    ensures Chained(Recorded(h, c, v))
  {
    var h' := Recorded(h, c, v);
    forall d | d in h' ensures Chain(h'[d]) {
      if d == c && c in h {
        assert Chain(h[c]);
        forall k | 0 < k < |h'[c]| ensures Follows(h'[c][k - 1], h'[c][k]) {
          if k < |h[c]| {
            assert h'[c][k] == h[c][k] && h'[c][k - 1] == h[c][k - 1];
          }
        }
      } else if d != c {
        assert Chain(h[d]);
      }
    }
  }

  /** Recording one more truthful mutation of the next version keeps the log in step. */
  lemma LogExtends(h: History, log: seq<Mutation>, v: Version, m: Mutation)
    requires Logged(h, log)
    requires m.receipt.version == (if m.receipt.contextId in h then |h[m.receipt.contextId]| else 0) + 1
    requires Truthful(Recorded(h, m.receipt.contextId, v), m)
    ensures Logged(Recorded(h, m.receipt.contextId, v), log + [m])
  {
    var c := m.receipt.contextId;
    var h' := Recorded(h, c, v);
    var log' := log + [m];
    RecordedGrows(h, c, v);
    assert log'[..|log|] == log;
    forall i | 0 <= i < |log'|
      ensures Truthful(h', log'[i])
      ensures log'[i].receipt.version == Writes(log'[..i], log'[i].receipt.contextId) + 1
    {
      if i < |log| {
        TruthStays(h, h', log[i]);
        assert log'[..i] == log[..i];
      }
    }
    forall d ensures Writes(log', d) == if d in h' then |h'[d]| else 0 {
      WritesNext(log, m, d);
    }
  }

  lemma WritesNext(log: seq<Mutation>, m: Mutation, d: string)
    ensures Writes(log + [m], d) == Writes(log, d) + (if d == m.receipt.contextId then 1 else 0)
  {
    assert (log + [m])[..|log|] == log;
  }

  // ---- every call keeps the history ----

  lemma SweepHistoric(o: Options, w: World, now: int)
    requires Historic(o, w)
    ensures Historic(o, w.(s := Swept(o, w.s, now)))
  {
    SweepSound(o, w.s, now);
    SweepRemembers(o, w.s, w.history, now);
  }

  lemma SweepRemembers(o: Options, s: Store, h: History, now: int)
    requires Remembered(s, h)
    ensures Remembered(Swept(o, s, now), h)
  {
    var t := Swept(o, s, now);
    forall c | c in t.contexts ensures c in h && Newest(t.contexts[c], h[c]) {
      assert Newest(s.contexts[c], h[c]);
    }
  }

  lemma ReserveHistoric(o: Options, w: World, req: Request, id: string, now: int, now': int)
    requires Historic(o, w) && id !in w.issued
    requires Grant(o, w.s, req, id, now).Ok?
    ensures var r := Grant(o, w.s, req, id, now).value;
            Historic(o, World(AddReservation(o, w.s, r, now'), w.history, w.log, w.issued + {id}))
  {
    var r := Grant(o, w.s, req, id, now).value;
    var t := AddReservation(o, w.s, r, now');
    ReserveSound(o, w.s, req, id, now, now');
    AddRemembers(o, w.s, r, w.history, now');
    AddKnowsParents(o, w.s, w.history, req, id, now, now');
    assert r.id == id;
    assert t.reservations.Keys == w.s.reservations.Keys + {id};
  }

  lemma AddRemembers(o: Options, s: Store, r: Reservation, h: History, now: int)
    requires Remembered(s, h) && AddReservation.requires(o, s, r, now)
    ensures Remembered(AddReservation(o, s, r, now), h)
  {
    var t := AddReservation(o, s, r, now);
    forall c | c in t.contexts ensures c in h && Newest(t.contexts[c], h[c]) {
      assert Newest(s.contexts[c], h[c]);
    }
  }

  lemma AddKnowsParents(o: Options, s: Store, h: History, req: Request, id: string, now: int, now': int)
    requires Remembered(s, h) && ParentsKnown(s, h) && Grant(o, s, req, id, now).Ok?
    ensures ParentsKnown(AddReservation(o, s, Grant(o, s, req, id, now).value, now'), h)
  {
    ForkParentKnown(o, s, h, req, id, now);
  }

  /** What a fork copies is the newest version of its parent. */
  lemma ForkParentKnown(o: Options, s: Store, h: History, req: Request, id: string, now: int)
    requires Remembered(s, h) && Grant(o, s, req, id, now).Ok?
    ensures ParentKnown(h, Grant(o, s, req, id, now).value)
  {
    if req.operation == Fork {
      var c := req.contextId.value;
      assert Newest(s.contexts[c], h[c]);
    }
  }

  lemma AbortHistoric(o: Options, w: World, r: Reservation, code: Option<string>, now: int)
    requires Historic(o, w) && IsOutstanding(w.s, r)
    ensures Historic(o, w.(s := Aborted(o, w.s, r, code, now)))
  {
    AbortSound(o, w.s, r, code, now);
    AbortRemembers(o, w.s, r, w.history, code, now);
  }

  lemma AbortRemembers(o: Options, s: Store, r: Reservation, h: History, code: Option<string>, now: int)
    requires Remembered(s, h)
    ensures Remembered(Aborted(o, s, r, code, now), h)
  {
    var t := Aborted(o, s, r, code, now);
    forall c | c in t.contexts ensures c in h && Newest(t.contexts[c], h[c]) {
      assert Newest(s.contexts[c], h[c]);
    }
  }

  lemma ReleaseHistoric(o: Options, w: World, owner: Owner, contextId: string, baseVersion: int, key: string,
                        now: int, now': int)
    requires Historic(o, w) && ReleaseFault(o, w.s, owner, contextId, baseVersion, key).Released?
    ensures var e := ReleaseFault(o, w.s, owner, contextId, baseVersion, key).entry;
            Historic(o, ApplyRelease(o, w, owner, contextId, baseVersion, key, e, now, now'))
  {
    var e := ReleaseFault(o, w.s, owner, contextId, baseVersion, key).entry;
    var h := w.history;
    var v := VersionOf(Release, e);
    var m := Mutation(ReleaseReceipt(contextId, e.version + 1), []);
    assert e == w.s.contexts[contextId] && Newest(e, h[contextId]);
    var t := AfterRelease(o, w.s, owner, contextId, baseVersion, key, e, now, now');
    ReleaseSound(o, w.s, owner, contextId, baseVersion, key, now, now');
    RecordedGrows(h, contextId, v);
    RecordRemembers(w.s, t, h, contextId, v);
    KeepParents(w.s, t, h, Recorded(h, contextId, v));
    assert Chain(h[contextId]);
    ChainExtends(h, contextId, v);
    assert Recorded(h, contextId, v)[contextId][e.version] == v;
    LogExtends(h, w.log, v, m);
  }

  lemma RecordRemembers(s: Store, t: Store, h: History, c: string, v: Version)
    requires Remembered(s, h)
    requires c in t.contexts && t.contexts == s.contexts[c := t.contexts[c]]
    requires Newest(t.contexts[c], (if c in h then h[c] else []) + [v])
    ensures Remembered(t, Recorded(h, c, v))
  {
    forall d | d in t.contexts ensures d in Recorded(h, c, v) && Newest(t.contexts[d], Recorded(h, c, v)[d]) {
      if d != c {
        assert Newest(s.contexts[d], h[d]);
      }
    }
  }

  lemma KeepParents(s: Store, t: Store, h: History, h': History)
    requires ParentsKnown(s, h) && Grown(h, h')
    requires forall id :: id in t.reservations ==> id in s.reservations && t.reservations[id] == s.reservations[id]
    ensures ParentsKnown(t, h')
  {
    forall id | id in t.reservations ensures ParentKnown(h', t.reservations[id]) {
      ParentStays(h, h', s.reservations[id]);
    }
  }

  lemma CommitHistoric(o: Options, w: World, r: Reservation, assistant: Message, now: int, now': int,
                       outputs: seq<string>)
    requires Historic(o, w) && CommitTarget(w.s, r, outputs).Ok?
    requires forall c :: c in outputs && c in w.history ==> c in w.s.contexts
    ensures Historic(o, ApplyCommit(o, w, r, assistant, now, now', CommitTarget(w.s, r, outputs).value))
  {
    var c := CommitTarget(w.s, r, outputs).value;
    var h := w.history;
    var e := CommittedEntry(w.s, r, c, assistant, now);
    var v := VersionOf(r.request.operation, e);
    var m := Mutation(CommitReceipt(r, c, e), Delta(r, assistant));
    var t := Committed(o, w.s, r, c, assistant, now, now');
    CommitSound(o, w.s, r, outputs, assistant, now, now');
    CommitStep(o, w.s, h, r, assistant, now, outputs);
    RecordedGrows(h, c, v);
    RecordRemembers(w.s, t, h, c, v);
    KeepParents(w.s, t, h, Recorded(h, c, v));
    assert c in h ==> Chain(h[c]);
    ChainExtends(h, c, v);
    LogExtends(h, w.log, v, m);
  }

  /** What a commit writes is the next version of its context, built from the state it was
      reserved against: the newest one for an append, the named parent for a fork. */
  lemma CommitStep(o: Options, s: Store, h: History, r: Reservation, assistant: Message, now: int, outputs: seq<string>)
    requires Linked(s) && Remembered(s, h) && ParentsKnown(s, h) && Chained(h)
    requires CommitTarget(s, r, outputs).Ok?
    requires forall c :: c in outputs && c in h ==> c in s.contexts
    ensures var c := CommitTarget(s, r, outputs).value;
            var e := CommittedEntry(s, r, c, assistant, now);
            var v := VersionOf(r.request.operation, e);
            && e.version == (if c in h then |h[c]| else 0) + 1
            && Newest(e, (if c in h then h[c] else []) + [v])
            && (if c in h then h[c] != [] && Follows(h[c][|h[c]| - 1], v) else Allocates(v.operation))
            && Truthful(Recorded(h, c, v), Mutation(CommitReceipt(r, c, e), Delta(r, assistant)))
  {
    assert WellKept(s, r.id) && ParentKnown(h, r);
    if Allocates(r.request.operation) {
      NextIdFresh(s.contexts, outputs, 0);
      AllocateStep(o, s, h, r, CommitTarget(s, r, outputs).value, assistant, now);
    } else {
      LockStep(o, s, h, r, assistant, now);
    }
  }

  lemma AllocateStep(o: Options, s: Store, h: History, r: Reservation, c: string, assistant: Message, now: int)
    requires Allocates(r.request.operation) && ParentKnown(h, r) && c !in h
    ensures var e := CommittedEntry(s, r, c, assistant, now);
            var v := VersionOf(r.request.operation, e);
            && e.version == 1 && Newest(e, [v])
            && Truthful(Recorded(h, c, v), Mutation(CommitReceipt(r, c, e), Delta(r, assistant)))
  {
    var e := CommittedEntry(s, r, c, assistant, now);
    var v := VersionOf(r.request.operation, e);
    var h' := Recorded(h, c, v);
    assert h'[c] == [v];
    if r.request.operation == Fork {
      var p := r.parentContextId.value;
      assert p != c && h'[p] == h[p];
      assert r.baseTranscript + r.request.messages + [assistant] == r.baseTranscript + Delta(r, assistant);
    }
  }

  lemma LockStep(o: Options, s: Store, h: History, r: Reservation, assistant: Message, now: int)
    requires IsOutstanding(s, r) && Locks(r.request.operation) && HoldsEntry(s, r)
    requires Remembered(s, h) && ParentKnown(h, r) && Chained(h)
    ensures var c := r.request.contextId.value;
            var e := CommittedEntry(s, r, c, assistant, now);
            var v := VersionOf(r.request.operation, e);
            && c in h && h[c] != []
            && e.version == |h[c]| + 1
            && Newest(e, h[c] + [v])
            && Follows(h[c][|h[c]| - 1], v)
            && Truthful(Recorded(h, c, v), Mutation(CommitReceipt(r, c, e), Delta(r, assistant)))
  {
    var c := r.request.contextId.value;
    var before := s.contexts[c];
    assert Newest(before, h[c]);
    var e := CommittedEntry(s, r, c, assistant, now);
    var v := VersionOf(r.request.operation, e);
    var h' := Recorded(h, c, v);
    assert h'[c] == h[c] + [v];
    assert h'[c][before.version] == v && h'[c][before.version - 1] == h[c][before.version - 1];
    assert before.transcript + r.request.messages + [assistant] == before.transcript + Delta(r, assistant);
  }

  // ---- reachable worlds ----

  lemma ApplyHistoric(o: Options, w: World, call: Call)
    requires Historic(o, w) && Allowed(w, call)
    ensures Historic(o, Apply(o, w, call))
  {
    match call
    case ReserveCall(req, id, now0, now1, now2) =>
      SweepHistoric(o, w, now0);
      var w0 := w.(s := Swept(o, w.s, now0));
      if Grant(o, w0.s, req, id, now1).Ok? {
        ReserveHistoric(o, w0, req, id, now1, now2);
      }
    case CommitCall(r, assistant, now0, now1, outputs) =>
      if CommitTarget(w.s, r, outputs).Ok? {
        CommitHistoric(o, w, r, assistant, now0, now1, outputs);
      }
    case AbortCall(r, code, now0, now1) =>
      if IsOutstanding(w.s, r) {
        AbortHistoric(o, w, r, code, now0);
        SweepHistoric(o, w.(s := Aborted(o, w.s, r, code, now0)), now1);
      }
    case ReleaseCall(owner, contextId, baseVersion, key, now0, now1, now2) =>
      SweepHistoric(o, w, now0);
      var w0 := w.(s := Swept(o, w.s, now0));
      if ReleaseFault(o, w0.s, owner, contextId, baseVersion, key).Released? {
        ReleaseHistoric(o, w0, owner, contextId, baseVersion, key, now1, now2);
      }
    case SweepCall(now0) => SweepHistoric(o, w, now0);
  }

  lemma StartHistoric(o: Options)
    ensures Historic(o, START)
  {
    EmptySound(o);
  }

  /** The invariants hold after every run of allowed calls, whatever the clock reads. */
  lemma {:induction false} RunsAreHistoric(o: Options, calls: seq<Call>)
    requires AllAllowed(o, calls)
    ensures Historic(o, WorldAfter(o, calls))
  {
    if calls == [] {
      StartHistoric(o);
    } else {
      var front := calls[..|calls| - 1];
      FrontAllowed(o, calls);
      RunsAreHistoric(o, front);
      ApplyHistoric(o, WorldAfter(o, front), calls[|calls| - 1]);
    }
  }

  lemma FrontAllowed(o: Options, calls: seq<Call>)
    requires AllAllowed(o, calls) && calls != []
    ensures AllAllowed(o, calls[..|calls| - 1])
    ensures Allowed(WorldAfter(o, calls[..|calls| - 1]), calls[|calls| - 1])
  {
    var front := calls[..|calls| - 1];
    assert AllowedAt(o, calls, |calls| - 1);
    forall i | 0 <= i < |front| ensures AllowedAt(o, front, i) {
      assert AllowedAt(o, calls, i);
      assert front[..i] == calls[..i];
    }
  }

  // ---- what a run guarantees ----

  /** In every reachable store an entry is marked with `id` exactly when `id` is an outstanding
      append or reset on it, and the entry is then active at the version it was reserved at. */
  lemma MarkedIffOutstanding(o: Options, calls: seq<Call>, c: string, id: string)
    requires AllAllowed(o, calls)
    ensures var s := WorldAfter(o, calls).s;
            && ((c in s.contexts && s.contexts[c].reservationId == Some(id)) <==>
                (id in s.reservations && Locks(s.reservations[id].request.operation)
                 && s.reservations[id].request.contextId == Some(c)))
            && (c in s.contexts && s.contexts[c].reservationId == Some(id) ==>
                s.contexts[c].state == ActiveState
                && s.reservations[id].request.baseVersion == Some(s.contexts[c].version))
  {
    RunsAreHistoric(o, calls);
    var s := WorldAfter(o, calls).s;
    if c in s.contexts {
      assert MarkedByHolder(s, c);
    }
    if id in s.reservations {
      assert WellKept(s, id);
    }
  }

  /** A commit of an outstanding append or reset never misses its entry, and writes the version
      right after the one it was reserved at. */
  lemma CommitAlwaysLands(o: Options, calls: seq<Call>, r: Reservation, assistant: Message, now: int, now': int,
                          outputs: seq<string>)
    requires AllAllowed(o, calls)
    requires IsOutstanding(WorldAfter(o, calls).s, r) && Locks(r.request.operation)
    ensures var w := WorldAfter(o, calls);
            && r.request.contextId.Some? && r.request.baseVersion.Some?
            && CommitTarget(w.s, r, outputs) == Ok(r.request.contextId.value)
            && var w' := Apply(o, w, CommitCall(r, assistant, now, now', outputs));
            && w'.log != []
            && w'.log[|w'.log| - 1].receipt.contextId == r.request.contextId.value
            && w'.log[|w'.log| - 1].receipt.version == r.request.baseVersion.value + 1
  {
    RunsAreHistoric(o, calls);
    assert WellKept(WorldAfter(o, calls).s, r.id);
    CommitFindsEntry(o, WorldAfter(o, calls).s, r, outputs);
  }

  /** The mutation receipts of each context carry the versions 1, 2, 3, … in order, each for
      the state its own messages produced. */
  lemma ReceiptsCount(o: Options, calls: seq<Call>, i: nat)
    requires AllAllowed(o, calls) && i < |WorldAfter(o, calls).log|
    ensures var w := WorldAfter(o, calls);
            && w.log[i].receipt.version == Writes(w.log[..i], w.log[i].receipt.contextId) + 1
            && Truthful(w.history, w.log[i])
  {
    RunsAreHistoric(o, calls);
  }

  lemma FirstAllocates(versions: seq<Version>, k: nat)
    requires Chain(versions) && k < |versions|
    ensures Allocates(versions[k].operation) ==> k == 0
  {
    if k > 0 {
      assert Follows(versions[k - 1], versions[k]);
    }
  }

  /** A fork receipt names a state its parent really had: the child starts from the parent's
      transcript at that version, under the same binding, whatever became of the parent. */
  lemma ForkNamesHistory(o: Options, calls: seq<Call>, i: nat)
    requires AllAllowed(o, calls) && i < |WorldAfter(o, calls).log|
    requires WorldAfter(o, calls).log[i].receipt.operation == Fork
    ensures var w := WorldAfter(o, calls);
            var m := w.log[i];
            && m.receipt.version == 1
            && m.receipt.contextId in w.history && |w.history[m.receipt.contextId]| > 0
            && m.receipt.parentContextId.Some? && m.receipt.parentVersion.Some?
            && var child := w.history[m.receipt.contextId][0];
            && |m.delta| <= |child.transcript|
            && WasState(w.history, m.receipt.parentContextId.value, m.receipt.parentVersion.value,
                        child.transcript[..|child.transcript| - |m.delta|], child.fingerprint)
            && child.transcript == child.transcript[..|child.transcript| - |m.delta|] + m.delta
  {
    RunsAreHistoric(o, calls);
    var w := WorldAfter(o, calls);
    var m := w.log[i];
    assert Truthful(w.history, m);
    var c := m.receipt.contextId;
    assert Chain(w.history[c]);
    FirstAllocates(w.history[c], m.receipt.version - 1);
    var parent := w.history[m.receipt.parentContextId.value][m.receipt.parentVersion.value - 1];
    var child := w.history[c][0];
    assert child.transcript == parent.transcript + m.delta;
    assert child.transcript[..|parent.transcript|] == parent.transcript;
  }

  /** No update is lost: between resets every version's transcript starts with each earlier one. */
  lemma {:induction false} TranscriptsExtend(o: Options, calls: seq<Call>, c: string, i: nat, j: nat)
    requires AllAllowed(o, calls)
    requires c in WorldAfter(o, calls).history && i <= j < |WorldAfter(o, calls).history[c]|
    requires forall k :: i < k <= j ==> WorldAfter(o, calls).history[c][k].operation != Reset
    ensures var versions := WorldAfter(o, calls).history[c];
            versions[i].transcript <= versions[j].transcript && versions[i].fingerprint == versions[j].fingerprint
    decreases j - i
  {
    if i < j {
      RunsAreHistoric(o, calls);
      TranscriptsExtend(o, calls, c, i, j - 1);
      var versions := WorldAfter(o, calls).history[c];
      assert Chain(versions);
      assert Follows(versions[j - 1], versions[j]);
    }
  }

  lemma ApplyGrows(o: Options, w: World, call: Call)
    ensures Grown(w.history, Apply(o, w, call).history)
    ensures w.log <= Apply(o, w, call).log
  {
  }

  /** A committed version is never rewritten by any later call. */
  lemma {:induction false} HistoryOnlyGrows(o: Options, calls: seq<Call>, n: nat)
    requires n <= |calls|
    ensures Grown(WorldAfter(o, calls[..n]).history, WorldAfter(o, calls).history)
    ensures WorldAfter(o, calls[..n]).log <= WorldAfter(o, calls).log
    decreases |calls| - n
  {
    if n == |calls| {
      assert calls[..n] == calls;
    } else {
      HistoryOnlyGrows(o, calls, n + 1);
      assert calls[..n + 1][..n] == calls[..n];
      var w, w' := WorldAfter(o, calls[..n]), WorldAfter(o, calls[..n + 1]);
      ApplyGrows(o, w, calls[n]);
      GrownTransitive(w.history, w'.history, WorldAfter(o, calls).history);
    }
  }

  lemma GrownTransitive(a: History, b: History, c: History)
    requires Grown(a, b) && Grown(b, c)
    ensures Grown(a, c)
  {
    forall k | k in a ensures k in c && a[k] <= c[k] {
      assert a[k] <= b[k] && b[k] <= c[k];
    }
  }

  /** For every owner, active contexts and pending creations together stay within the quota. */
  lemma QuotaHolds(o: Options, calls: seq<Call>, owner: Owner)
    requires AllAllowed(o, calls)
    ensures var s := WorldAfter(o, calls).s;
            |LiveOf(s, owner)| + |PendingOf(s, owner)| <= (if o.maxContexts > 0 then o.maxContexts else 0)
  {
    RunsAreHistoric(o, calls);
    var s := WorldAfter(o, calls).s;
    assert Used(s, owner) <= (if o.maxContexts > 0 then o.maxContexts else 0);
  }

  /** The idempotency keys in progress are exactly the keys of the outstanding reservations,
      one reservation for each. */
  lemma BusyKeysAreReservations(o: Options, calls: seq<Call>, k: string)
    requires AllAllowed(o, calls)
    ensures var s := WorldAfter(o, calls).s;
            && ((k in s.idempotency && s.idempotency[k].state == Busy) <==>
                exists id :: id in s.reservations && KeyOf(s.reservations[id]) == k)
            && (forall a, b :: a in s.reservations && b in s.reservations && a != b ==>
                  KeyOf(s.reservations[a]) != KeyOf(s.reservations[b]))
  {
    RunsAreHistoric(o, calls);
    var s := WorldAfter(o, calls).s;
    if k in s.idempotency && s.idempotency[k].state == Busy {
      assert HasReservation(s, k);
    }
    forall id | id in s.reservations ensures InProgress(s, s.reservations[id]) && s.reservations[id].id == id {
      assert WellKept(s, id);
    }
  }
}
