/** `NdpRegistryProfile`: the announce registry, its sequence high-water marks and cluster
    resolution. A frame is given by the fields the registry reads; `digest` is the hash of its
    signed body, which leaves out `health` and `last_seen`. */
module NdpRegistry {
  import opened Common
  import opened Ids

  datatype Sequence = Absent | Malformed | Sequence(number: nat)

  /** Times are milliseconds; a field that is missing or does not parse is `None`. `ttl` is
      `None` unless it is an unsigned 32-bit integer. */
  datatype Announce = Announce(
    nid: Id,
    timestamp: Option<int>,
    graphSeq: Sequence,
    ttl: Option<nat>,
    bridgeShapeValid: bool,
    health: Option<string>,
    lastSeen: Option<string>,
    lastSeenAt: Option<int>,
    clusterAnchor: Option<string>,
    isAnchor: bool,
    clusterEpoch: Option<int>,
    digest: string)

  datatype Entry = Entry(frame: Announce, digest: string, expiresAt: int)

  datatype Registry = Registry(entries: map<Id, Entry>, sequences: map<Id, nat>)

  const EMPTY := Registry(map[], map[])

  datatype Fault = SignatureInvalid | ProfileViolation | SeqRollback | Conflict | Stale

  datatype Decision = Accepted | DuplicateFrame | Refreshed | Removed | Rejected(fault: Fault)

  function SequenceOf(f: Announce): nat {
    if f.graphSeq.Sequence? then f.graphSeq.number else 0
  }

  function Abs(n: int): nat {
    if n < 0 then -n else n
  }

  /** The checks that do not look at the registry, in source order. */
  function FrameFault(localDev: bool, f: Announce, signatureValid: bool, receivedAt: int): Option<Fault> {
    if !signatureValid then Some(SignatureInvalid)
    else if f.nid == [] || f.timestamp.None? then Some(ProfileViolation)
    else if f.graphSeq.Malformed? || (f.graphSeq.Absent? && !localDev) || f.ttl.None? then Some(ProfileViolation)
    else if !f.bridgeShapeValid then Some(ProfileViolation)
    else if !localDev && Abs(receivedAt - f.timestamp.value) > 300000 then Some(SignatureInvalid)
    else None
  }

  function Deadline(f: Announce): Option<int> {
    var source := if f.lastSeenAt.Some? then f.lastSeenAt else f.timestamp;
    if source.None? then None
    else Some(source.value + (if f.ttl.Some? then f.ttl.value else 0) * 1000)
  }

  predicate Fresh(f: Announce, receivedAt: int) {
    Deadline(f).Some? && Deadline(f).value > receivedAt
  }

  predicate SameLiveness(f: Announce, g: Announce) {
    f.health == g.health && f.lastSeen == g.lastSeen
  }

  function EntryOf(f: Announce): Entry
    requires Deadline(f).Some?
  {
    Entry(f, f.digest, Deadline(f).value)
  }

  function Applied(localDev: bool, r: Registry, f: Announce, signatureValid: bool, receivedAt: int)
      : (Decision, Registry)
  {
    var fault := FrameFault(localDev, f, signatureValid, receivedAt);
    if fault.Some? then (Rejected(fault.value), r)
    else
      var n := SequenceOf(f);
      if f.nid in r.sequences && n < r.sequences[f.nid] then (Rejected(SeqRollback), r)
      else if f.nid in r.sequences && n == r.sequences[f.nid] then
        if f.nid !in r.entries then (DuplicateFrame, r)
        else if r.entries[f.nid].digest != f.digest then (Rejected(Conflict), r)
        else if SameLiveness(r.entries[f.nid].frame, f) then (DuplicateFrame, r)
        else if !Fresh(f, receivedAt) then (Rejected(Stale), r)
        else (Refreshed, r.(entries := r.entries[f.nid := EntryOf(f)]))
      else if f.ttl == Some(0) then
        (Removed, Registry(r.entries - {f.nid}, r.sequences[f.nid := n]))
      else if !Fresh(f, receivedAt) then (Rejected(Stale), r)
      else (Accepted, Registry(r.entries[f.nid := EntryOf(f)], r.sequences[f.nid := n]))
  }

  datatype Selection = NoLeader | Leader(nid: Id, epoch: int) | ClusterSplit

  function EpochOf(f: Announce): int {
    if f.clusterEpoch.Some? then f.clusterEpoch.value else 1
  }

  predicate IsMember(e: Entry, cluster: string, now: int) {
    e.expiresAt > now && e.frame.clusterAnchor == Some(cluster) && e.frame.isAnchor
  }

  function LiveMembers(r: Registry, cluster: string, now: int): set<Id> {
    set nid | nid in r.entries && IsMember(r.entries[nid], cluster, now)
  }

  class NdpRegistryProfile {
    const localDev: bool
    var entries: map<Id, Entry>
    var sequences: map<Id, nat>

    function State(): Registry
      reads this
    {
      Registry(entries, sequences)
    }

    constructor (localDev: bool)
      ensures this.localDev == localDev && State() == EMPTY
    {
      this.localDev := localDev;
      entries, sequences := map[], map[];
    }

    method ApplyAnnounce(f: Announce, signatureValid: bool, receivedAt: int) returns (decision: Decision)
      modifies this
      ensures (decision, State()) == Applied(localDev, old(State()), f, signatureValid, receivedAt)
    {
      var fault := FrameFault(localDev, f, signatureValid, receivedAt);
      if fault.Some? {
        return Rejected(fault.value);
      }
      var n := SequenceOf(f);
      if f.nid in sequences {
        var highest := sequences[f.nid];
        if n < highest {
          return Rejected(SeqRollback);
        }
        if n == highest {
          if f.nid !in entries {
            return DuplicateFrame;
          }
          var current := entries[f.nid];
          if current.digest != f.digest {
            return Rejected(Conflict);
          }
          if SameLiveness(current.frame, f) {
            return DuplicateFrame;
          }
          var expiresAt := Deadline(f);
          if expiresAt.None? || expiresAt.value <= receivedAt {
            return Rejected(Stale);
          }
          entries := entries[f.nid := Entry(f, f.digest, expiresAt.value)];
          return Refreshed;
        }
      }
      if f.ttl == Some(0) {
        sequences := sequences[f.nid := n];
        entries := entries - {f.nid};
        return Removed;
      }
      var expiresAt := Deadline(f);
      if expiresAt.None? || expiresAt.value <= receivedAt {
        return Rejected(Stale);
      }
      sequences := sequences[f.nid := n];
      entries := entries[f.nid := Entry(f, f.digest, expiresAt.value)];
      return Accepted;
    }

    /** The one live member with the top epoch, or a split when several share it. */
    method ResolveCluster(cluster: string, now: int) returns (s: Selection)
      ensures s.NoLeader? <==> LiveMembers(State(), cluster, now) == {}
      ensures s.Leader? ==>
                && s.nid in LiveMembers(State(), cluster, now)
                && s.epoch == EpochOf(entries[s.nid].frame)
                && forall m :: m in LiveMembers(State(), cluster, now) && m != s.nid ==>
                    EpochOf(entries[m].frame) < s.epoch
      ensures s.ClusterSplit? ==>
                exists a, b :: a in LiveMembers(State(), cluster, now) && b in LiveMembers(State(), cluster, now)
                  && a != b
                  && EpochOf(entries[a].frame) == EpochOf(entries[b].frame)
                  && forall m :: m in LiveMembers(State(), cluster, now) ==>
                      EpochOf(entries[m].frame) <= EpochOf(entries[a].frame)
    {
      var members := set nid | nid in entries && IsMember(entries[nid], cluster, now);
      assert members == LiveMembers(State(), cluster, now);
      if members == {} {
        return NoLeader;
      }
      var leader :| leader in members;
      var todo := members - {leader};
      var tied := false;
      ghost var rival := leader;
      while todo != {}
        invariant leader in members && todo <= members - {leader}
        invariant forall m :: m in members - todo ==> EpochOf(entries[m].frame) <= EpochOf(entries[leader].frame)
        invariant !tied ==> forall m :: m in members - todo && m != leader ==>
                  EpochOf(entries[m].frame) < EpochOf(entries[leader].frame)
        invariant tied ==> rival in members && rival != leader
        invariant tied ==> EpochOf(entries[rival].frame) == EpochOf(entries[leader].frame)
        decreases todo
      {
        var m :| m in todo;
        todo := todo - {m};
        if EpochOf(entries[m].frame) > EpochOf(entries[leader].frame) {
          leader, tied := m, false;
        } else if EpochOf(entries[m].frame) == EpochOf(entries[leader].frame) {
          tied, rival := true, m;
        }
      }
      if tied {
        assert leader in LiveMembers(State(), cluster, now) && rival in LiveMembers(State(), cluster, now);
        return ClusterSplit;
      }
      return Leader(leader, EpochOf(entries[leader].frame));
    }

    /** Identifiers of the unexpired entries, in code-unit order. */
    method LiveNids(now: int) returns (nids: seq<Id>)
      ensures Sorted(nids) && Distinct(nids)
      ensures forall nid :: nid in nids <==> nid in entries && entries[nid].expiresAt > now
    {
      nids := [];
      var todo := entries.Keys;
      while todo != {}
        invariant todo <= entries.Keys
        invariant Distinct(nids)
        invariant forall nid :: nid in nids <==> nid in entries && nid !in todo && entries[nid].expiresAt > now
        decreases todo
      {
        var nid :| nid in todo;
        todo := todo - {nid};
        if entries[nid].expiresAt > now {
          nids := nids + [nid];
        }
      }
      SameElements(nids, Sort(nids));
      forall nid ensures nid in nids <==> nid in Sort(nids) {
        assert nid in multiset(nids) <==> nid in multiset(Sort(nids));
      }
      nids := Sort(nids);
    }
  }

  // ---- any clock ----

  /** A frame as it was received. */
  datatype Receipt = Receipt(frame: Announce, signatureValid: bool, receivedAt: int)

  function After(localDev: bool, log: seq<Receipt>): Registry {
    if log == [] then EMPTY
    else
      var last := log[|log| - 1];
      Applied(localDev, After(localDev, log[..|log| - 1]), last.frame, last.signatureValid, last.receivedAt).1
  }

  /** The high-water mark of a node never falls, whatever the receive times. */
  lemma {:induction false} HighWaterMonotone(localDev: bool, log: seq<Receipt>, i: nat, nid: Id)
    requires i <= |log| && nid in After(localDev, log[..i]).sequences
    ensures nid in After(localDev, log).sequences
    ensures After(localDev, log[..i]).sequences[nid] <= After(localDev, log).sequences[nid]
    decreases |log| - i
  {
    if i == |log| {
      assert log[..i] == log;
    } else {
      assert log[..i + 1][..i] == log[..i];
      HighWaterMonotone(localDev, log, i + 1, nid);
    }
  }

  lemma {:induction false} EntriesHaveMarks(localDev: bool, log: seq<Receipt>)
    ensures After(localDev, log).entries.Keys <= After(localDev, log).sequences.Keys
  {
    if log != [] {
      EntriesHaveMarks(localDev, log[..|log| - 1]);
    }
  }

  /** One announce brings a removed node back only with a larger sequence number. */
  lemma ReturnsLarger(localDev: bool, r: Registry, receipt: Receipt, nid: Id)
    requires nid in r.sequences && nid !in r.entries
    ensures var r' := Applied(localDev, r, receipt.frame, receipt.signatureValid, receipt.receivedAt).1;
            && nid in r'.sequences && r.sequences[nid] <= r'.sequences[nid]
            && (nid in r'.entries ==> r.sequences[nid] < r'.sequences[nid])
  {
  }

  /** A removed node comes back only under a strictly larger sequence number. */
  lemma {:induction false} RemovedReturnsLarger(localDev: bool, log: seq<Receipt>, i: nat, nid: Id)
    requires i <= |log|
    requires nid in After(localDev, log[..i]).sequences && nid !in After(localDev, log[..i]).entries
    requires nid in After(localDev, log).entries
    ensures nid in After(localDev, log).sequences
    ensures After(localDev, log[..i]).sequences[nid] < After(localDev, log).sequences[nid]
    decreases |log| - i
  {
    assert log[..|log|] == log;
    if i < |log| {
      assert log[..i + 1][..i] == log[..i];
      ReturnsLarger(localDev, After(localDev, log[..i]), log[i], nid);
      if nid in After(localDev, log[..i + 1]).entries {
        HighWaterMonotone(localDev, log, i + 1, nid);
      } else {
        RemovedReturnsLarger(localDev, log, i + 1, nid);
      }
    }
  }

  // ---- convergence at one receive time ----

  /** A signed frame: the announce and whether its signature verifies. */
  datatype Signed = Signed(frame: Announce, signatureValid: bool)

  function Fold(localDev: bool, frames: seq<Signed>, at: int): Registry {
    if frames == [] then EMPTY
    else
      var last := frames[|frames| - 1];
      Applied(localDev, Fold(localDev, frames[..|frames| - 1], at), last.frame, last.signatureValid, at).1
  }

  predicate SameSlot(f: Signed, g: Signed) {
    f.frame.nid == g.frame.nid && SequenceOf(f.frame) == SequenceOf(g.frame)
  }

  /** A frame that would be taken up by a registry that knows nothing. */
  predicate Effective(localDev: bool, f: Signed, at: int) {
    FrameFault(localDev, f.frame, f.signatureValid, at).None? && (f.frame.ttl == Some(0) || Fresh(f.frame, at))
  }

  /** Effective frames of one node under one sequence number are the same frame. What a registry
      rejects may repeat any number. */
  ghost predicate Unambiguous(localDev: bool, frames: set<Signed>, at: int) {
    forall f, g ::
      f in frames && g in frames && SameSlot(f, g) && Effective(localDev, f, at) && Effective(localDev, g, at) ==>
        f == g
  }

  /** `f` is the effective frame of its node with the largest sequence number. */
  ghost predicate IsTop(localDev: bool, frames: set<Signed>, at: int, f: Signed) {
    f in frames && Effective(localDev, f, at) &&
    forall g :: g in frames && Effective(localDev, g, at) && g.frame.nid == f.frame.nid ==>
      SequenceOf(g.frame) <= SequenceOf(f.frame)
  }

  /** The registry says of a node exactly what the top frame of that node says. */
  ghost predicate Reflects(localDev: bool, r: Registry, frames: set<Signed>, at: int, nid: Id) {
    if nid in r.sequences then
      exists f: Signed :: f.frame.nid == nid && IsTop(localDev, frames, at, f) && ShowsTop(r, f)
    else
      nid !in r.entries && forall g :: g in frames && g.frame.nid == nid ==> !Effective(localDev, g, at)
  }

  ghost predicate ShowsTop(r: Registry, f: Signed) {
    var nid := f.frame.nid;
    && nid in r.sequences && r.sequences[nid] == SequenceOf(f.frame)
    && (if f.frame.ttl == Some(0) then nid !in r.entries
        else Deadline(f.frame).Some? && nid in r.entries && r.entries[nid] == EntryOf(f.frame))
  }

  function FrameSet(frames: seq<Signed>): set<Signed> {
    set f | f in frames
  }

  lemma {:induction false} FoldReflects(localDev: bool, frames: seq<Signed>, at: int, nid: Id)
    requires Unambiguous(localDev, FrameSet(frames), at)
    ensures Reflects(localDev, Fold(localDev, frames, at), FrameSet(frames), at, nid)
  {
    if frames != [] {
      var front := frames[..|frames| - 1];
      var last := frames[|frames| - 1];
      assert FrameSet(frames) == FrameSet(front) + {last};
      FoldReflects(localDev, front, at, nid);
      ApplyReflects(localDev, Fold(localDev, front, at), FrameSet(front), at, nid, last);
    }
  }

  lemma ApplyReflects(localDev: bool, r: Registry, frames: set<Signed>, at: int, nid: Id, last: Signed)
    requires Unambiguous(localDev, frames + {last}, at) && Reflects(localDev, r, frames, at, nid)
    ensures Reflects(localDev, Applied(localDev, r, last.frame, last.signatureValid, at).1, frames + {last}, at, nid)
  {
    if last.frame.nid != nid {
      ApplyElsewhere(localDev, r, frames, at, nid, last);
    } else if nid in r.sequences {
      ApplyAgain(localDev, r, frames, at, last);
    } else {
      ApplyFirst(localDev, r, frames, at, last);
    }
  }

  /** A frame of another node changes nothing about this one. */
  lemma ApplyElsewhere(localDev: bool, r: Registry, frames: set<Signed>, at: int, nid: Id, last: Signed)
    requires Reflects(localDev, r, frames, at, nid) && last.frame.nid != nid
    ensures Reflects(localDev, Applied(localDev, r, last.frame, last.signatureValid, at).1, frames + {last}, at, nid)
  {
    var r' := Applied(localDev, r, last.frame, last.signatureValid, at).1;
    if nid in r.sequences {
      var f: Signed :| f.frame.nid == nid && IsTop(localDev, frames, at, f) && ShowsTop(r, f);
      assert IsTop(localDev, frames + {last}, at, f) && ShowsTop(r', f);
    }
  }

  /** A frame of a known node replaces its top frame only with a larger sequence number. */
  lemma ApplyAgain(localDev: bool, r: Registry, frames: set<Signed>, at: int, last: Signed)
    requires Unambiguous(localDev, frames + {last}, at) && Reflects(localDev, r, frames, at, last.frame.nid)
    requires last.frame.nid in r.sequences
    ensures Reflects(localDev, Applied(localDev, r, last.frame, last.signatureValid, at).1, frames + {last}, at,
                     last.frame.nid)
  {
    var nid := last.frame.nid;
    var r' := Applied(localDev, r, last.frame, last.signatureValid, at).1;
    var all := frames + {last};
    var f: Signed :| f.frame.nid == nid && IsTop(localDev, frames, at, f) && ShowsTop(r, f);
    if Effective(localDev, last, at) && SequenceOf(last.frame) > SequenceOf(f.frame) {
      assert IsTop(localDev, all, at, last) && ShowsTop(r', last);
    } else {
      assert Effective(localDev, last, at) && SequenceOf(last.frame) == SequenceOf(f.frame) ==> last == f;
      assert IsTop(localDev, all, at, f) && ShowsTop(r', f);
    }
  }

  /** The first effective frame of a node becomes its top frame. */
  lemma ApplyFirst(localDev: bool, r: Registry, frames: set<Signed>, at: int, last: Signed)
    requires Reflects(localDev, r, frames, at, last.frame.nid) && last.frame.nid !in r.sequences
    ensures Reflects(localDev, Applied(localDev, r, last.frame, last.signatureValid, at).1, frames + {last}, at,
                     last.frame.nid)
  {
    var r' := Applied(localDev, r, last.frame, last.signatureValid, at).1;
    if Effective(localDev, last, at) {
      assert IsTop(localDev, frames + {last}, at, last) && ShowsTop(r', last);
    }
  }

  /** Convergence: at a fixed receive time the final registry depends only on which announces
      arrived, not on their order or on how often each did. */
  lemma RegistryConverges(localDev: bool, frames: seq<Signed>, frames': seq<Signed>, at: int)
    requires FrameSet(frames) == FrameSet(frames') && Unambiguous(localDev, FrameSet(frames), at)
    ensures Fold(localDev, frames, at) == Fold(localDev, frames', at)
  {
    var r, r' := Fold(localDev, frames, at), Fold(localDev, frames', at);
    forall nid
      ensures nid in r.sequences <==> nid in r'.sequences
      ensures nid in r.sequences && nid in r'.sequences ==> r.sequences[nid] == r'.sequences[nid]
      ensures nid in r.entries <==> nid in r'.entries
      ensures nid in r.entries && nid in r'.entries ==> r.entries[nid] == r'.entries[nid]
    {
      FoldReflects(localDev, frames, at, nid);
      FoldReflects(localDev, frames', at, nid);
      SameReflection(localDev, r, r', FrameSet(frames), at, nid);
    }
    assert r.sequences == r'.sequences && r.entries == r'.entries;
  }

  lemma TopsAgree(localDev: bool, frames: set<Signed>, at: int, f: Signed, g: Signed)
    requires Unambiguous(localDev, frames, at) && f.frame.nid == g.frame.nid
    requires IsTop(localDev, frames, at, f) && IsTop(localDev, frames, at, g)
    ensures f == g
  {
  }

  lemma SameReflection(localDev: bool, r: Registry, r': Registry, frames: set<Signed>, at: int, nid: Id)
    requires Unambiguous(localDev, frames, at)
    requires Reflects(localDev, r, frames, at, nid) && Reflects(localDev, r', frames, at, nid)
    ensures nid in r.sequences <==> nid in r'.sequences
    ensures nid in r.sequences && nid in r'.sequences ==> r.sequences[nid] == r'.sequences[nid]
    ensures nid in r.entries <==> nid in r'.entries
    ensures nid in r.entries && nid in r'.entries ==> r.entries[nid] == r'.entries[nid]
  {
    if nid in r.sequences && nid in r'.sequences {
      var f: Signed :| f.frame.nid == nid && IsTop(localDev, frames, at, f) && ShowsTop(r, f);
      var g: Signed :| g.frame.nid == nid && IsTop(localDev, frames, at, g) && ShowsTop(r', g);
      TopsAgree(localDev, frames, at, f, g);
    }
  }
}
