/** `admitInvocationProjection`: every check, in order, before the replay claim, with the
    arithmetic that ties the acceptance window to the retention of the claim. */
module ContextAdmission {
  import opened Common
  import opened ReplayStore

  const RETENTION_SECONDS := 5

  datatype Code = Untrusted | Invalid | Unavailable | BindingMismatch | ExpiredCode | Replay

  /** The claims of a projection that the pipeline computes with. */
  datatype Projection = Projection(
    issuer: string,
    audience: string,
    projectionId: string,
    issuedAt: int,
    expiresAt: int)

  /** The answers of everything outside the pipeline, as it asks for them; `None` from a
      callback is an infrastructure failure. Checks asked twice have two answers. */
  datatype Answers = Answers(
    experimental: (bool, bool),
    otherClaimsValid: bool,
    issuerAllowed: (bool, bool, bool),
    signature: (Option<bool>, Option<bool>),
    delegationAllowed: (Result, Result),
    clock: (int, int),
    requestSchema: (Result, Result),
    digestMatches: bool,
    operationValid: Option<bool>,
    authorized: Option<bool>)

  datatype Result = Pass | Reject(code: Code)

  datatype Admission = Admitted | Rejected(code: Code)

  function FirstOf(a: Result, b: Result): Result {
    if a.Reject? then a else b
  }

  function Check(condition: bool, code: Code): Result {
    if condition then Pass else Reject(code)
  }

  function Ask(answer: Option<bool>, code: Code): Result {
    if answer.None? then Reject(Unavailable) else Check(answer.value, code)
  }

  /** The claim shape that bears on time and on the replay key. */
  predicate ClaimsValid(p: Projection) {
    && Safe(p.issuedAt) && p.issuedAt >= 0
    && Safe(p.expiresAt + RETENTION_SECONDS)
    && p.issuedAt < p.expiresAt <= p.issuedAt + 60
    && IsHex32(p.projectionId)
    && p.issuer != "" && Utf8Length(p.issuer) <= 512
  }

  function TimeCheck(p: Projection, now: int, skew: int): Result {
    if !Safe(now) || now < 0 then Reject(Unavailable)
    else if p.issuedAt > now + skew then Reject(Invalid)
    else if now >= p.expiresAt + skew then Reject(ExpiredCode)
    else Pass
  }

  function Delegation(issuerAllowed: bool, other: Result): Result {
    FirstOf(Check(issuerAllowed, Untrusted), other)
  }

  /** Everything up to the replay claim. */
  function BeforeClaim(p: Projection, skew: int, a: Answers): Result {
    FirstOf(Check(a.experimental.0, Untrusted),
    FirstOf(Check(a.otherClaimsValid && ClaimsValid(p), Invalid),
    FirstOf(Check(0 <= skew <= 5, Invalid),
    FirstOf(Check(a.issuerAllowed.0, Untrusted),
    FirstOf(Ask(a.signature.0, Untrusted),
    FirstOf(Delegation(a.issuerAllowed.1, a.delegationAllowed.0),
    FirstOf(TimeCheck(p, a.clock.0, skew),
    FirstOf(a.requestSchema.0,
    FirstOf(Check(a.digestMatches, BindingMismatch),
    FirstOf(Ask(a.operationValid, BindingMismatch),
    FirstOf(Ask(a.authorized, BindingMismatch),
    FirstOf(Ask(a.signature.1, Untrusted),
    FirstOf(Check(a.experimental.1, Untrusted),
    FirstOf(Delegation(a.issuerAllowed.2, a.delegationAllowed.1),
    FirstOf(a.requestSchema.1,
            TimeCheck(p, a.clock.1, skew))))))))))))))))
  }

  function ClaimOf(p: Projection, skew: int): ClaimInput {
    ClaimInput(p.audience, p.issuer, p.projectionId, p.expiresAt + skew, p.expiresAt + RETENTION_SECONDS)
  }

  function Decide(claimed: Option<Outcome>): Admission {
    match claimed
    case None => Rejected(Unavailable)
    case Some(Duplicate) => Rejected(Replay)
    case Some(Expired) => Rejected(ExpiredCode)
    case Some(Claimed) => Admitted
  }

  /** The pipeline over a shared replay store. A check that fails returns before the claim, so
      it never uses up the projection identifier. */
  method AdmitInvocationProjection(store: SqliteProjectionReplayStore, p: Projection, skew: int, a: Answers,
                                   storeNow: int)
      returns (result: Admission, ghost claimed: Option<Outcome>)
    modifies store.db
    ensures BeforeClaim(p, skew, a).Reject? ==>
              result == Rejected(BeforeClaim(p, skew, a).code) && store.db.State() == old(store.db.State())
    ensures BeforeClaim(p, skew, a).Pass? && claimed.Some? ==>
              ClaimStep(old(store.db.State()), store.capacity, store.audience, ClaimOf(p, skew), storeNow)
              == Some((claimed.value, store.db.State()))
    ensures BeforeClaim(p, skew, a).Pass? && claimed.None? ==>
              result == Rejected(Unavailable) && store.db.State() == old(store.db.State())
    ensures BeforeClaim(p, skew, a).Pass? ==>
              && (claimed == Some(Duplicate) ==> result == Rejected(Replay))
              && (claimed == Some(Expired) ==> result == Rejected(ExpiredCode))
              && (result == Admitted <==> claimed == Some(Claimed))
    ensures result == Admitted ==>
              && a.signature == (Some(true), Some(true)) && a.authorized == Some(true) && a.operationValid == Some(true)
              && p.issuedAt - skew <= a.clock.1 < p.expiresAt + skew && storeNow < p.expiresAt + skew
              && p.audience == store.audience
  {
    var replay: Option<Outcome> := None;
    if !a.experimental.0 { return Rejected(Untrusted), None; }
    if !a.otherClaimsValid || !ClaimsValid(p) { return Rejected(Invalid), None; }
    if !(0 <= skew <= 5) { return Rejected(Invalid), None; }
    if !a.issuerAllowed.0 { return Rejected(Untrusted), None; }
    if a.signature.0.None? { return Rejected(Unavailable), None; }
    if !a.signature.0.value { return Rejected(Untrusted), None; }
    if !a.issuerAllowed.1 { return Rejected(Untrusted), None; }
    if a.delegationAllowed.0.Reject? { return Rejected(a.delegationAllowed.0.code), None; }
    var time := TimeCheck(p, a.clock.0, skew);
    if time.Reject? { return Rejected(time.code), None; }
    if a.requestSchema.0.Reject? { return Rejected(a.requestSchema.0.code), None; }
    if !a.digestMatches { return Rejected(BindingMismatch), None; }
    if a.operationValid.None? { return Rejected(Unavailable), None; }
    if !a.operationValid.value { return Rejected(BindingMismatch), None; }
    if a.authorized.None? { return Rejected(Unavailable), None; }
    if !a.authorized.value { return Rejected(BindingMismatch), None; }
    if a.signature.1.None? { return Rejected(Unavailable), None; }
    if !a.signature.1.value { return Rejected(Untrusted), None; }
    if !a.experimental.1 { return Rejected(Untrusted), None; }
    if !a.issuerAllowed.2 { return Rejected(Untrusted), None; }
    if a.delegationAllowed.1.Reject? { return Rejected(a.delegationAllowed.1.code), None; }
    if a.requestSchema.1.Reject? { return Rejected(a.requestSchema.1.code), None; }
    time := TimeCheck(p, a.clock.1, skew);
    if time.Reject? { return Rejected(time.code), None; }
    replay := store.Claim(ClaimOf(p, skew), storeNow);
    return Decide(replay), replay;
  }

  // ---- at most once ----

  /** A claim that an admission makes, for some projection and some skew the pipeline allows. */
  ghost predicate FromAdmission(c: ClaimInput, p: Projection, skew: int) {
    c == ClaimOf(p, skew) && ClaimsValid(p) && 0 <= skew <= 5
  }

  /** Over every interleaving of claims, at most one is granted for a projection identifier of
      an issuer, when its projections share one expiry: the acceptance window always closes
      before the retention does. */
  lemma AtMostOnce(capacity: nat, audience: string, run: seq<Attempt>, i: nat, j: nat,
                   p: Projection, p': Projection, skew: int, skew': int)
    requires IsRun(capacity, audience, run) && i < |run| && j < |run|
    requires FromAdmission(run[i].c, p, skew) && FromAdmission(run[j].c, p', skew')
    requires p.issuer == p'.issuer && p.projectionId == p'.projectionId && p.expiresAt == p'.expiresAt
    requires run[i].result == Some(Claimed) && run[j].result == Some(Claimed)
    ensures i == j
  {
    if i < j {
      SecondClaimAfterRetention(capacity, audience, run, i, j);
    } else if j < i {
      SecondClaimAfterRetention(capacity, audience, run, j, i);
    }
  }

  /** One run grants first `c` and later `c'`. */
  ghost predicate GrantsBoth(capacity: nat, audience: string, run: seq<Attempt>, i: nat, j: nat, c: ClaimInput,
                             c': ClaimInput) {
    && IsRun(capacity, audience, run) && i < j < |run|
    && run[i].c == c && run[i].result == Some(Claimed)
    && run[j].c == c' && run[j].result == Some(Claimed)
  }

  ghost predicate SomeRunGrantsBoth(capacity: nat, audience: string, c: ClaimInput, c': ClaimInput) {
    exists run, i: nat, j: nat :: GrantsBoth(capacity, audience, run, i, j, c, c')
  }

  /** The store grants both, each at a clock at which the time checks of its projection pass. */
  ghost predicate AdmitsBoth(capacity: nat, p: Projection, p': Projection, skew: int, skew': int, run: seq<Attempt>,
                             i: nat, j: nat) {
    && GrantsBoth(capacity, p.audience, run, i, j, ClaimOf(p, skew), ClaimOf(p', skew'))
    && TimeCheck(p, run[i].now, skew).Pass? && TimeCheck(p', run[j].now, skew').Pass?
  }

  ghost predicate SomeRunAdmitsBoth(capacity: nat, p: Projection, p': Projection, skew: int, skew': int) {
    exists run, i: nat, j: nat :: AdmitsBoth(capacity, p, p', skew, skew', run, i, j)
  }

  /** Projections that share an identifier but not an expiry: both can be granted, and even by
      admissions that each lie inside their own window, exactly when the second is still
      acceptable once the retention of the first is over. */
  lemma ClaimedAgainIff(capacity: nat, p: Projection, p': Projection, skew: int, skew': int)
    requires capacity > 0 && ClaimsValid(p) && ClaimsValid(p') && 0 <= skew <= 5 && 0 <= skew' <= 5
    requires p.audience == p'.audience && p.issuer == p'.issuer && p.projectionId == p'.projectionId
    ensures SomeRunAdmitsBoth(capacity, p, p', skew, skew') <==> p.expiresAt + RETENTION_SECONDS < p'.expiresAt + skew'
    ensures SomeRunGrantsBoth(capacity, p.audience, ClaimOf(p, skew), ClaimOf(p', skew'))
       <==> p.expiresAt + RETENTION_SECONDS < p'.expiresAt + skew'
  {
    var c, c' := ClaimOf(p, skew), ClaimOf(p', skew');
    if SomeRunGrantsBoth(capacity, p.audience, c, c') {
      var run, i: nat, j: nat :| GrantsBoth(capacity, p.audience, run, i, j, c, c');
      SecondClaimAfterRetention(capacity, p.audience, run, i, j);
    }
    if c.retainUntil < c'.acceptBefore {
      AdmittedTwice(capacity, p, p', skew, skew');
    }
    if SomeRunAdmitsBoth(capacity, p, p', skew, skew') {
      var run, i: nat, j: nat :| AdmitsBoth(capacity, p, p', skew, skew', run, i, j);
      assert GrantsBoth(capacity, p.audience, run, i, j, c, c');
    }
  }

  /** The first is claimed as it is issued, the second as soon as it is issued and the row of
      the first has run out. */
  lemma AdmittedTwice(capacity: nat, p: Projection, p': Projection, skew: int, skew': int)
    requires capacity > 0 && ClaimsValid(p) && ClaimsValid(p') && 0 <= skew <= 5 && 0 <= skew' <= 5
    requires p.audience == p'.audience && p.issuer == p'.issuer && p.projectionId == p'.projectionId
    requires p.expiresAt + RETENTION_SECONDS < p'.expiresAt + skew'
    ensures SomeRunAdmitsBoth(capacity, p, p', skew, skew')
  {
    var c, c' := ClaimOf(p, skew), ClaimOf(p', skew');
    var now, now' := p.issuedAt, if p'.issuedAt < c.retainUntil then c.retainUntil else p'.issuedAt;
    var run := ClaimTwice(capacity, p.audience, c, c', now, now');
    assert AdmitsBoth(capacity, p, p', skew, skew', run, 0, 1);
  }

  lemma ClaimTwice(capacity: nat, audience: string, c: ClaimInput, c': ClaimInput, now: int, now': int)
      returns (run: seq<Attempt>)
    requires capacity > 0 && WellFormed(c, audience) && WellFormed(c', audience) && KeyOf(c) == KeyOf(c')
    requires Safe(now) && Safe(now') && 0 <= now < c.acceptBefore && c.retainUntil <= now' < c'.acceptBefore
    ensures GrantsBoth(capacity, audience, run, 0, 1, c, c') && run[0].now == now && run[1].now == now'
  {
    var t, t' := Table(map[KeyOf(c) := c.retainUntil], now), Table(map[KeyOf(c) := c'.retainUntil], now');
    assert Pruned(FRESH.rows, now) == map[] && Pruned(t.rows, now') == map[];
    assert ClaimStep(FRESH, capacity, audience, c, now) == Some((Claimed, t));
    assert ClaimStep(t, capacity, audience, c', now') == Some((Claimed, t'));
    run := [Attempt(c, now, Some(Claimed), t), Attempt(c', now', Some(Claimed), t')];
    assert Before(run, 0) == FRESH && Before(run, 1) == t;
    assert IsRun(capacity, audience, run);
  }

  /** So an identifier is not admitted at most once: ten seconds more suffice for a second. */
  lemma ReusedIdentifier(id: string)
    requires IsHex32(id)
    ensures var p := Projection("a", "aud", id, 0, 10);
            SomeRunAdmitsBoth(1, p, p.(issuedAt := 10, expiresAt := 20), 5, 5)
  {
    assert Utf8Length("a") == 1;
    var p := Projection("a", "aud", id, 0, 10);
    ClaimedAgainIff(1, p, p.(issuedAt := 10, expiresAt := 20), 5, 5);
  }
}
