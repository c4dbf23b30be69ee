/** `SqliteProjectionReplayStore.claim`: a durable table of claimed projections shared by all
    replicas, with a persisted clock high-water mark. A claim is one transaction: it either
    commits or leaves the table as it was. */
module ReplayStore {
  import opened Common

  datatype Outcome = Claimed | Duplicate | Expired

  type Key = (string, string)

  datatype Table = Table(rows: map<Key, int>, lastNow: int)

  const FRESH := Table(map[], 0)

  datatype ClaimInput = ClaimInput(
    audience: string,
    issuer: string,
    projectionId: string,
    acceptBefore: int,
    retainUntil: int)

  const MAX_SAFE: int := 0x1F_FFFF_FFFF_FFFF

  predicate Safe(n: int) {
    -MAX_SAFE <= n <= MAX_SAFE
  }

  /** Bytes of the UTF-8 encoding. */
  function Utf8Length(s: string): nat {
    if s == "" then 0
    else
      var u := s[0] as int;
      (if u < 0x80 then 1 else if u < 0x800 then 2 else if u < 0x1_0000 then 3 else 4) + Utf8Length(s[1..])
  }

  predicate IsHex32(s: string) {
    |s| == 32 && forall i :: 0 <= i < 32 ==> '0' <= s[i] <= '9' || 'a' <= s[i] <= 'f'
  }

  predicate WellFormed(c: ClaimInput, audience: string) {
    && c.audience == audience
    && c.issuer != "" && Utf8Length(c.issuer) <= 512
    && IsHex32(c.projectionId)
    && Safe(c.acceptBefore) && Safe(c.retainUntil)
    && 0 <= c.acceptBefore <= c.retainUntil
  }

  predicate ClockAccepted(t: Table, now: int) {
    Safe(now) && 0 <= now && t.lastNow <= now
  }

  function Pruned(rows: map<Key, int>, now: int): map<Key, int> {
    map k | k in rows && rows[k] > now :: rows[k]
  }

  function KeyOf(c: ClaimInput): Key {
    (c.issuer, c.projectionId)
  }

  /** What a claim that reaches its commit does, or `None` when it must be rolled back. */
  function ClaimStep(t: Table, capacity: nat, audience: string, c: ClaimInput, now: int): Option<(Outcome, Table)> {
    if !WellFormed(c, audience) || !ClockAccepted(t, now) then None
    else if now >= c.acceptBefore then Some((Expired, t.(lastNow := now)))
    else
      var rows := Pruned(t.rows, now);
      if KeyOf(c) in rows then Some((Duplicate, Table(rows, now)))
      else if |rows| >= capacity then None
      else Some((Claimed, Table(rows[KeyOf(c) := c.retainUntil], now)))
  }

  /** The shared file. Every replica holds a reference to the same object. */
  class ReplayDatabase {
    var rows: map<Key, int>
    var lastNow: int

    constructor ()
      ensures State() == FRESH
    {
      rows, lastNow := map[], 0;
    }

    function State(): Table
      reads this
    {
      Table(rows, lastNow)
    }
  }

  class SqliteProjectionReplayStore {
    const db: ReplayDatabase
    const audience: string
    const capacity: nat

    constructor (db: ReplayDatabase, audience: string, capacity: nat)
      ensures this.db == db && this.audience == audience && this.capacity == capacity
    {
      this.db, this.audience, this.capacity := db, audience, capacity;
    }

    /** `None` stands for the verifier-unavailable error, whatever its cause. Any statement of
        the transaction may fail; the rollback then restores what `BEGIN` saw. */
    method Claim(c: ClaimInput, now: int) returns (result: Option<Outcome>)
      modifies db
      ensures result.Some? ==>
                ClaimStep(old(db.State()), capacity, audience, c, now) == Some((result.value, db.State()))
      ensures result.None? ==> db.State() == old(db.State())
    {
      if !WellFormed(c, audience) {
        return None;
      }
      var begins: bool := *;
      if !begins {
        return None;
      }
      var savedRows, savedNow := db.rows, db.lastNow;
      if !Safe(now) || now < 0 || now < db.lastNow {
        return None;
      }
      db.lastNow := now;
      var outcome: Outcome;
      if now >= c.acceptBefore {
        outcome := Expired;
      } else {
        db.rows := Pruned(db.rows, now);
        if KeyOf(c) in db.rows {
          outcome := Duplicate;
        } else {
          if |db.rows| >= capacity {
            db.rows, db.lastNow := savedRows, savedNow;
            return None;
          }
          db.rows := db.rows[KeyOf(c) := c.retainUntil];
          outcome := Claimed;
        }
      }
      var commits: bool := *;
      if !commits {
        db.rows, db.lastNow := savedRows, savedNow;
        return None;
      }
      return Some(outcome);
    }
  }

  // ---- runs of claims ----

  /** One claim as it went: `result` is what the replica saw. A crash after the commit leaves
      the table changed with nothing returned. */
  datatype Attempt = Attempt(c: ClaimInput, now: int, result: Option<Outcome>, after: Table)

  ghost predicate Follows(before: Table, capacity: nat, audience: string, a: Attempt) {
    var step := ClaimStep(before, capacity, audience, a.c, a.now);
    || (a.result.None? && a.after == before)
    || (step.Some? && a.after == step.value.1 && (a.result.None? || a.result == Some(step.value.0)))
  }

  function Before(run: seq<Attempt>, i: nat): Table
    requires i <= |run|
  {
    if i == 0 then FRESH else run[i - 1].after
  }

  /** Any interleaving of replica claims with any clock readings, failures and rollbacks. */
  ghost predicate IsRun(capacity: nat, audience: string, run: seq<Attempt>) {
    forall i :: 0 <= i < |run| ==> FollowsAt(capacity, audience, run, i)
  }

  ghost predicate FollowsAt(capacity: nat, audience: string, run: seq<Attempt>, i: nat)
    requires i < |run|
  {
    Follows(Before(run, i), capacity, audience, run[i])
  }

  /** The table never exceeds its capacity and its clock never goes back. */
  lemma {:induction false} CapacityAndClock(capacity: nat, audience: string, run: seq<Attempt>, i: nat)
    requires IsRun(capacity, audience, run) && i <= |run|
    ensures |Before(run, i).rows| <= capacity
    ensures 0 <= Before(run, i).lastNow
    ensures i > 0 ==> Before(run, i - 1).lastNow <= Before(run, i).lastNow
  {
    if i > 0 {
      CapacityAndClock(capacity, audience, run, i - 1);
      var t := Before(run, i - 1);
      assert FollowsAt(capacity, audience, run, i - 1);
      PrunedSize(t.rows, run[i - 1].now);
    }
  }

  lemma PrunedSize(rows: map<Key, int>, now: int)
    ensures |Pruned(rows, now)| <= |rows|
  {
    SubsetSize(Pruned(rows, now).Keys, rows.Keys);
    assert |Pruned(rows, now)| == |Pruned(rows, now).Keys| && |rows| == |rows.Keys|;
  }

  lemma StepRetains(before: Table, capacity: nat, audience: string, a: Attempt, k: Key)
    requires Follows(before, capacity, audience, a) && k in before.rows
    ensures RetainedOrOver(a.after, k, before.rows[k])
  {
  }

  lemma StepClaims(before: Table, capacity: nat, audience: string, a: Attempt)
    requires Follows(before, capacity, audience, a) && a.result == Some(Claimed)
    ensures KeyOf(a.c) in a.after.rows && a.after.rows[KeyOf(a.c)] == a.c.retainUntil
    ensures KeyOf(a.c) !in Pruned(before.rows, a.now) && a.now < a.c.acceptBefore && before.lastNow <= a.now
  {
  }

  predicate RetainedOrOver(t: Table, k: Key, retain: int) {
    (k in t.rows && t.rows[k] == retain) || retain <= t.lastNow
  }

  /** A row is dropped only once its retention has run out: from its insertion on it is either
      still there unchanged or the clock has passed its retention. */
  lemma {:induction false} RowRetained(capacity: nat, audience: string, run: seq<Attempt>, i: nat, j: nat, k: Key)
    requires IsRun(capacity, audience, run) && i <= j <= |run|
    requires k in Before(run, i).rows
    ensures RetainedOrOver(Before(run, j), k, Before(run, i).rows[k])
    decreases j - i
  {
    if i < j {
      RowRetained(capacity, audience, run, i, j - 1, k);
      CapacityAndClock(capacity, audience, run, j);
      assert FollowsAt(capacity, audience, run, j - 1);
      if k in Before(run, j - 1).rows {
        StepRetains(Before(run, j - 1), capacity, audience, run[j - 1], k);
      }
    }
  }

  lemma OverWhenPruned(t: Table, k: Key, retain: int, now: int)
    requires RetainedOrOver(t, k, retain) && k !in Pruned(t.rows, now) && t.lastNow <= now
    ensures retain <= now
  {
  }

  /** A projection is claimed a second time only after the first claim's retention is over. */
  lemma SecondClaimAfterRetention(capacity: nat, audience: string, run: seq<Attempt>, i: nat, j: nat)
    requires IsRun(capacity, audience, run) && i < j < |run|
    requires KeyOf(run[i].c) == KeyOf(run[j].c)
    requires run[i].result == Some(Claimed) && run[j].result == Some(Claimed)
    ensures run[i].c.retainUntil <= run[j].now < run[j].c.acceptBefore
  {
    assert FollowsAt(capacity, audience, run, i) && FollowsAt(capacity, audience, run, j);
    StepClaims(Before(run, i), capacity, audience, run[i]);
    StepClaims(Before(run, j), capacity, audience, run[j]);
    RowRetained(capacity, audience, run, i + 1, j, KeyOf(run[i].c));
    OverWhenPruned(Before(run, j), KeyOf(run[i].c), run[i].c.retainUntil, run[j].now);
  }
}
