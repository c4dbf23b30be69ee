/** `AnchorEpochFence`: the ownership state machine of one Anchor, and a cluster of them
    exchanging frames that may be lost, duplicated and reordered. */
module AnchorEpoch {
  import opened Common

  datatype Role = Active | Standby

  datatype Fence = Fence(ownEpoch: int, role: Role, degraded: bool, highestObserved: int)

  datatype Verdict = Accepted | EpochFenced | NotLeader

  function IsActive(f: Fence): bool {
    f.role == Active && !f.degraded
  }

  function Opened(ownEpoch: int, role: Role, degraded: bool): Fence {
    Fence(ownEpoch, role, degraded, ownEpoch)
  }

  function Max(a: int, b: int): int {
    if a < b then b else a
  }

  /** A frame without an epoch counts as epoch 1. */
  function EpochOf(frame: Option<int>): int {
    if frame.Some? then frame.value else 1
  }

  /** The fence comes first, on reads and writes alike; the leader check is for writes only. */
  function VerdictOn(f: Fence, frame: Option<int>, isWrite: bool): Verdict {
    if EpochOf(frame) > f.ownEpoch then EpochFenced
    else if isWrite && !IsActive(f) then NotLeader
    else Accepted
  }

  function Observed(f: Fence, frame: Option<int>): Fence {
    var inbound := EpochOf(frame);
    f.(highestObserved := Max(f.highestObserved, inbound),
       role := if inbound > f.ownEpoch then Standby else f.role)
  }

  predicate MayTake(f: Fence, epoch: int) {
    epoch > f.highestObserved
  }

  function Taken(epoch: int): Fence {
    Fence(epoch, Active, false, epoch)
  }

  class AnchorEpochFence {
    const anchorNid: string
    var ownEpoch: int
    var role: Role
    var degraded: bool
    var highestObserved: int

    function State(): Fence
      reads this
    {
      Fence(ownEpoch, role, degraded, highestObserved)
    }

    constructor (anchorNid: string, ownEpoch: int, role: Role, degraded: bool)
      requires anchorNid != ""
      ensures this.anchorNid == anchorNid && State() == Opened(ownEpoch, role, degraded)
    {
      this.anchorNid := anchorNid;
      this.ownEpoch, this.role, this.degraded, this.highestObserved := ownEpoch, role, degraded, ownEpoch;
    }

    method OnInboundFrame(frame: Option<int>, isTopologyWrite: bool) returns (verdict: Verdict)
      modifies this
      ensures verdict == VerdictOn(old(State()), frame, isTopologyWrite)
      ensures State() == Observed(old(State()), frame)
    {
      var inbound := EpochOf(frame);
      if inbound > highestObserved {
        highestObserved := inbound;
      }
      if inbound > ownEpoch {
        role := Standby;
        return EpochFenced;
      }
      if isTopologyWrite && !(role == Active && !degraded) {
        return NotLeader;
      }
      return Accepted;
    }

    method OnQuorumLost()
      modifies this
      ensures State() == old(State()).(degraded := true)
    {
      degraded := true;
    }

    method OnQuorumRestored()
      modifies this
      ensures State() == old(State()).(degraded := false)
    {
      degraded := false;
    }

    method TakeOwnership(newEpoch: int) returns (ok: bool)
      modifies this
      ensures ok <==> MayTake(old(State()), newEpoch)
      ensures State() == if ok then Taken(newEpoch) else old(State())
    {
      if newEpoch <= highestObserved {
        return false;
      }
      ownEpoch := newEpoch;
      highestObserved := newEpoch;
      role := Active;
      degraded := false;
      return true;
    }
  }

  /** Construction as its caller sees it: an empty identifier is an error, which is `null` here,
      and what is not given defaults to active at epoch 1. */
  method OpenFence(anchorNid: string, ownEpoch: Option<int>, role: Option<Role>, degraded: Option<bool>)
      returns (fence: AnchorEpochFence?)
    ensures fence == null <==> anchorNid == ""
    ensures fence != null ==> fresh(fence) && fence.anchorNid == anchorNid
    ensures fence != null ==>
              fence.State() == Opened(if ownEpoch.Some? then ownEpoch.value else 1,
                                      if role.Some? then role.value else Active,
                                      degraded == Some(true))
  {
    if anchorNid == "" {
      return null;
    }
    fence := new AnchorEpochFence(anchorNid, if ownEpoch.Some? then ownEpoch.value else 1,
                                  if role.Some? then role.value else Active,
                                  if degraded.Some? then degraded.value else false);
  }

  // ---- one fence over a whole life ----

  datatype Action =
    | Frame(epoch: Option<int>, isWrite: bool)
    | QuorumLost
    | QuorumRestored
    | Take(newEpoch: int)

  function Step(f: Fence, a: Action): Fence {
    match a
    case Frame(epoch, _) => Observed(f, epoch)
    case QuorumLost => f.(degraded := true)
    case QuorumRestored => f.(degraded := false)
    case Take(e) => if MayTake(f, e) then Taken(e) else f
  }

  function FenceAfter(f: Fence, actions: seq<Action>): Fence {
    if actions == [] then f
    else Step(FenceAfter(f, actions[..|actions| - 1]), actions[|actions| - 1])
  }

  /** An active Anchor owns the highest epoch it has ever seen. */
  ghost predicate Fenced(f: Fence) {
    f.ownEpoch <= f.highestObserved && (f.role == Active ==> f.ownEpoch == f.highestObserved)
  }

  lemma {:induction false} ActiveOwnsHighest(f: Fence, actions: seq<Action>)
    requires Fenced(f)
    ensures Fenced(FenceAfter(f, actions))
    ensures f.ownEpoch <= FenceAfter(f, actions).ownEpoch
    ensures f.highestObserved <= FenceAfter(f, actions).highestObserved
  {
    if actions != [] {
      ActiveOwnsHighest(f, actions[..|actions| - 1]);
    }
  }

  lemma {:induction false} LifeSplits(f: Fence, actions: seq<Action>, n: nat)
    requires n <= |actions|
    ensures FenceAfter(f, actions) == FenceAfter(FenceAfter(f, actions[..n]), actions[n..])
    decreases |actions|
  {
    if n == |actions| {
      assert actions[..n] == actions && actions[n..] == [];
    } else {
      var k := |actions| - 1;
      LifeSplits(f, actions[..k], n);
      assert actions[..k][..n] == actions[..n];
      assert actions[n..][..|actions[n..]| - 1] == actions[..k][n..];
    }
  }

  /** Once a frame with epoch `e` has arrived, at any later point a topology write is accepted
      only at an own epoch of at least `e`. */
  lemma NoStaleWrite(start: Fence, actions: seq<Action>, i: nat, frame: Option<int>)
    requires Fenced(start) && i < |actions| && actions[i].Frame?
    requires VerdictOn(FenceAfter(start, actions), frame, true) == Accepted
    ensures EpochOf(actions[i].epoch) <= FenceAfter(start, actions).ownEpoch
    ensures FenceAfter(start, actions).ownEpoch == FenceAfter(start, actions).highestObserved
  {
    LifeSplits(start, actions, i + 1);
    assert actions[..i + 1][..i] == actions[..i];
    ActiveOwnsHighest(start, actions[..i]);
    ActiveOwnsHighest(start, actions[..i + 1]);
    ActiveOwnsHighest(FenceAfter(start, actions[..i + 1]), actions[i + 1..]);
  }

  // ---- how long an owner stays active ----

  predicate Takes(f: Fence, a: Action) {
    a.Take? && MayTake(f, a.newEpoch)
  }

  /** How many actions there are up to and including the last accepted take; 0 without one. */
  function SinceTake(f: Fence, actions: seq<Action>): (n: nat)
    ensures n <= |actions|
  {
    if actions == [] then 0
    else
      var k := |actions| - 1;
      if Takes(FenceAfter(f, actions[..k]), actions[k]) then |actions| else SinceTake(f, actions[..k])
  }

  /** Some frame from position `from` on carried an epoch above `epoch`. */
  ghost predicate ToldHigher(actions: seq<Action>, from: nat, epoch: int) {
    exists i :: from <= i < |actions| && actions[i].Frame? && EpochOf(actions[i].epoch) > epoch
  }

  /** An Anchor is active if and only if it was opened active or took ownership, and since then no
      frame with an epoch above its own has arrived. */
  ghost predicate Rules(f: Fence, actions: seq<Action>) {
    var n := SinceTake(f, actions);
    && (n == 0 ==> f.role == Active)
    && !ToldHigher(actions, n, FenceAfter(f, actions).ownEpoch)
  }

  lemma {:induction false} ActiveIffRules(f: Fence, actions: seq<Action>)
    ensures FenceAfter(f, actions).role == Active <==> Rules(f, actions)
    ensures SinceTake(f, actions) > 0 ==> actions[SinceTake(f, actions) - 1].Take?
    ensures var n := SinceTake(f, actions);
            FenceAfter(f, actions).ownEpoch == if n == 0 then f.ownEpoch else actions[n - 1].newEpoch
  {
    if actions != [] {
      var k := |actions| - 1;
      ActiveIffRules(f, actions[..k]);
      if !Takes(FenceAfter(f, actions[..k]), actions[k]) {
        ToldNext(actions, SinceTake(f, actions), FenceAfter(f, actions).ownEpoch);
      }
    }
  }

  lemma ToldNext(actions: seq<Action>, from: nat, epoch: int)
    requires actions != [] && from < |actions|
    ensures var k := |actions| - 1;
            ToldHigher(actions, from, epoch)
            <==> ToldHigher(actions[..k], from, epoch)
                 || (actions[k].Frame? && EpochOf(actions[k].epoch) > epoch)
  {
    var k := |actions| - 1;
    if ToldHigher(actions[..k], from, epoch) {
      var i :| from <= i < k && actions[..k][i].Frame? && EpochOf(actions[..k][i].epoch) > epoch;
      assert actions[i] == actions[..k][i];
    }
    if i :| from <= i < k && actions[i].Frame? && EpochOf(actions[i].epoch) > epoch {
      assert actions[..k][i] == actions[i];
    }
  }

  // ---- a cluster ----

  type Cluster = map<string, Fence>

  /** What happens to one Anchor. Frames carry any epoch at any time, which covers losing,
      repeating and reordering them. */
  datatype Event = Event(anchor: string, action: Action)

  function ClusterAfter(c: Cluster, events: seq<Event>): Cluster {
    if events == [] then c
    else
      var before := ClusterAfter(c, events[..|events| - 1]);
      var e := events[|events| - 1];
      if e.anchor in before then before[e.anchor := Step(before[e.anchor], e.action)] else before
  }

  /** The epochs of the takes that were accepted, in order. */
  function Grants(c: Cluster, events: seq<Event>): seq<int> {
    if events == [] then []
    else
      var front, e := events[..|events| - 1], events[|events| - 1];
      var before := ClusterAfter(c, front);
      Grants(c, front) +
      (if e.action.Take? && e.anchor in before && MayTake(before[e.anchor], e.action.newEpoch)
       then [e.action.newEpoch] else [])
  }

  /** `epoch` is owned by an initially active Anchor. */
  ghost predicate OwnedAtStart(c: Cluster, epoch: int) {
    exists a :: a in c && c[a].role == Active && c[a].ownEpoch == epoch
  }

  /** Every accepted epoch is accepted once, and none was owned at the start. */
  ghost predicate GrantsFresh(c: Cluster, events: seq<Event>) {
    && (forall i, j :: 0 <= i < j < |Grants(c, events)| ==> Grants(c, events)[i] != Grants(c, events)[j])
    && (forall x :: x in Grants(c, events) ==> !OwnedAtStart(c, x))
  }

  ghost predicate AllFenced(c: Cluster) {
    forall a :: a in c ==> Fenced(c[a])
  }

  ghost predicate ActiveAtDistinctEpochs(c: Cluster) {
    forall a, b :: a in c && b in c && a != b && c[a].role == Active && c[b].role == Active ==>
      c[a].ownEpoch != c[b].ownEpoch
  }

  /** Every active Anchor owns an epoch of the start or a granted one. */
  ghost predicate OwnsGranted(start: Cluster, c: Cluster, grants: seq<int>) {
    forall a :: a in c && c[a].role == Active ==> OwnedAtStart(start, c[a].ownEpoch) || c[a].ownEpoch in grants
  }

  lemma GrantsFreshPrefix(c: Cluster, events: seq<Event>)
    requires events != [] && GrantsFresh(c, events)
    ensures GrantsFresh(c, events[..|events| - 1])
    ensures var front := Grants(c, events[..|events| - 1]);
            Grants(c, events) != front ==>
              Grants(c, events)[|front|] !in front && !OwnedAtStart(c, Grants(c, events)[|front|])
  {
    var front, all := Grants(c, events[..|events| - 1]), Grants(c, events);
    assert front == all[..|front|];
    if all != front {
      assert all[|front|] in all;
    }
  }

  /** Over lost, repeated and reordered frames: every active Anchor owns an epoch of the start or
      a granted one, and no two own the same. */
  lemma {:induction false} OwnedOnce(c: Cluster, events: seq<Event>)
    requires AllFenced(c) && ActiveAtDistinctEpochs(c) && GrantsFresh(c, events)
    ensures AllFenced(ClusterAfter(c, events)) && ActiveAtDistinctEpochs(ClusterAfter(c, events))
    ensures OwnsGranted(c, ClusterAfter(c, events), Grants(c, events))
  {
    if events != [] {
      var front := events[..|events| - 1];
      GrantsFreshPrefix(c, events);
      OwnedOnce(c, front);
      StepOwnsOnce(c, ClusterAfter(c, front), Grants(c, front), events[|events| - 1]);
      assert forall x :: x in Grants(c, front) ==> x in Grants(c, events);
    }
  }

  /** One event at one Anchor. */
  lemma StepOwnsOnce(start: Cluster, c: Cluster, grants: seq<int>, e: Event)
    requires AllFenced(c) && ActiveAtDistinctEpochs(c) && OwnsGranted(start, c, grants)
    requires e.action.Take? && e.anchor in c && MayTake(c[e.anchor], e.action.newEpoch) ==>
               e.action.newEpoch !in grants && !OwnedAtStart(start, e.action.newEpoch)
    ensures var c' := if e.anchor in c then c[e.anchor := Step(c[e.anchor], e.action)] else c;
            var took := e.action.Take? && e.anchor in c && MayTake(c[e.anchor], e.action.newEpoch);
            && AllFenced(c') && ActiveAtDistinctEpochs(c')
            && OwnsGranted(start, c', if took then grants + [e.action.newEpoch] else grants)
  {
  }

  /** No run with fresh grants lets two Anchors be active at one epoch. */
  ghost predicate NeverTwoAtOneEpoch(c: Cluster) {
    forall events :: GrantsFresh(c, events) ==> ActiveAtDistinctEpochs(ClusterAfter(c, events))
  }

  /** No two Anchors are ever active at the same epoch if and only if none were at the start. */
  lemma NoTwoActiveAtOneEpoch(c: Cluster)
    requires AllFenced(c)
    ensures NeverTwoAtOneEpoch(c) <==> ActiveAtDistinctEpochs(c)
  {
    if ActiveAtDistinctEpochs(c) {
      forall events | GrantsFresh(c, events) ensures ActiveAtDistinctEpochs(ClusterAfter(c, events)) {
        OwnedOnce(c, events);
      }
    } else {
      assert GrantsFresh(c, []) && ClusterAfter(c, []) == c;
    }
  }

  /** Two Anchors opened with the defaults are both active at epoch 1. */
  lemma TwoDefaultAnchors(a: string, b: string)
    requires a != b
    ensures var fence := Opened(1, Active, false);
            AllFenced(map[a := fence, b := fence]) && !NeverTwoAtOneEpoch(map[a := fence, b := fence])
  {
    var fence := Opened(1, Active, false);
    var c := map[a := fence, b := fence];
    assert c[a].ownEpoch == c[b].ownEpoch;
    NoTwoActiveAtOneEpoch(c);
  }

  // ---- when at most one Anchor is active ----

  /** What happens to one Anchor of the cluster, in order. */
  function ActionsOf(events: seq<Event>, a: string): seq<Action> {
    if events == [] then []
    else
      var last := events[|events| - 1];
      ActionsOf(events[..|events| - 1], a) + if last.anchor == a then [last.action] else []
  }

  /** An Anchor of a cluster lives through its own actions alone. */
  lemma {:induction false} OwnLife(c: Cluster, events: seq<Event>, a: string)
    requires a in c
    ensures ClusterAfter(c, events).Keys == c.Keys
    ensures ClusterAfter(c, events)[a] == FenceAfter(c[a], ActionsOf(events, a))
  {
    if events != [] {
      var front, last := events[..|events| - 1], events[|events| - 1];
      OwnLife(c, front, a);
      if last.anchor == a {
        var own := ActionsOf(front, a);
        assert (own + [last.action])[..|own|] == own;
      } else {
        assert ActionsOf(front, a) + [] == ActionsOf(front, a);
      }
    }
  }

  function ActiveIn(c: Cluster): set<string> {
    set a | a in c && c[a].role == Active
  }

  /** The owners that have not been told of an epoch above their own. */
  ghost function Ruling(c: Cluster, events: seq<Event>): set<string> {
    set a | a in c && Rules(c[a], ActionsOf(events, a))
  }

  predicate AtMostOne(s: set<string>) {
    forall a, b :: a in s && b in s ==> a == b
  }

  /** In any run exactly those Anchors are active that were opened active or took ownership and
      have not been told of an epoch above their own since. */
  lemma ActiveAreRuling(c: Cluster, events: seq<Event>)
    ensures ActiveIn(ClusterAfter(c, events)) == Ruling(c, events)
  {
    KeysStay(c, events);
    forall a | a in c ensures ClusterAfter(c, events)[a].role == Active <==> Rules(c[a], ActionsOf(events, a)) {
      OwnLife(c, events, a);
      ActiveIffRules(c[a], ActionsOf(events, a));
    }
  }

  lemma {:induction false} KeysStay(c: Cluster, events: seq<Event>)
    ensures ClusterAfter(c, events).Keys == c.Keys
  {
    if events != [] {
      KeysStay(c, events[..|events| - 1]);
    }
  }

  /** Beside an owner that rules, no other Anchor is active if and only if every other owner has
      been told of an epoch above its own. */
  lemma OldOwnerLingers(c: Cluster, events: seq<Event>, b: string)
    requires b in Ruling(c, events)
    ensures AtMostOne(ActiveIn(ClusterAfter(c, events)))
       <==> forall a :: a in c && a != b ==> !Rules(c[a], ActionsOf(events, a))
  {
    ActiveAreRuling(c, events);
    forall a | a in c && a != b ensures a in Ruling(c, events) <==> Rules(c[a], ActionsOf(events, a)) {
    }
    if AtMostOne(Ruling(c, events)) {
      forall a | a in c && a != b ensures !Rules(c[a], ActionsOf(events, a)) {
        assert a !in Ruling(c, events);
      }
    }
  }

  /** The shortest such run: the old owner is active beside its successor until it is told. */
  lemma TwoEpochsAtOnce(a: string, b: string)
    requires a != b
    ensures var c := map[a := Opened(1, Active, false), b := Opened(1, Standby, false)];
            var taken := ClusterAfter(c, [Event(b, Take(2))]);
            var told := ClusterAfter(c, [Event(b, Take(2)), Event(a, Frame(Some(2), false))]);
            && a in taken && b in taken && taken[a].role == Active && taken[b].role == Active
            && taken[a].ownEpoch == 1 && taken[b].ownEpoch == 2
            && a in told && told[a].role == Standby
  {
    var c := map[a := Opened(1, Active, false), b := Opened(1, Standby, false)];
    var events := [Event(b, Take(2)), Event(a, Frame(Some(2), false))];
    assert events[..1] == [events[0]] && [events[0]][..0] == [];
    assert ClusterAfter(c, []) == c;
  }
}
