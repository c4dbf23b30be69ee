/** Trees of any size. RFC 9162 splits a list at the largest power of two below its length and
    lets `tree_size` steer the fold; the client steers by the bits of the index alone. It then
    refuses the honest proofs of the leaves above full depth, and accepts those leaves under
    other positions. */
module InclusionSize {
  import opened ByteStrings
  import opened Inclusion

  function Depth(t: Tree): nat {
    match t
    case Leaf(_) => 0
    case Node(l, _) => Depth(l) + 1
  }

  /** The shape section 2.1.1 of RFC 9162 gives a list: a perfect left part, and a right part
      of at most the same size. */
  ghost predicate RfcShape(t: Tree) {
    match t
    case Leaf(_) => true
    case Node(l, r) => Perfect(l, Depth(l)) && RfcShape(r) && Depth(r) <= Depth(l)
  }

  /** The audit path of section 2.1.3.1 for the leaf at position `m`, siblings bottom up. */
  function AuditPath(sha: Hash, t: Tree, m: nat): seq<Bytes> {
    match t
    case Leaf(_) => []
    case Node(l, r) =>
      if m < |Leaves(l)| then AuditPath(sha, l, m) + [Root(sha, r)]
      else AuditPath(sha, r, m - |Leaves(l)|) + [Root(sha, l)]
  }

  lemma {:induction false} PerfectFacts(t: Tree, k: nat)
    requires Perfect(t, k)
    ensures Depth(t) == k && RfcShape(t) && |Leaves(t)| == Pow2(k)
  {
    if k > 0 {
      PerfectFacts(t.left, k - 1);
      PerfectFacts(t.right, k - 1);
    }
  }

  /** The depth is the base-two logarithm of the size, rounded up. */
  lemma {:induction false} DepthIsLogarithm(t: Tree)
    requires RfcShape(t)
    ensures |Leaves(t)| <= Pow2(Depth(t))
    ensures Depth(t) > 0 ==> Pow2(Depth(t) - 1) < |Leaves(t)|
  {
    match t
    case Leaf(_) =>
    case Node(l, r) =>
      PerfectFacts(l, Depth(l));
      DepthIsLogarithm(r);
      PowerMonotone(Depth(r), Depth(l));
  }

  lemma {:induction false} PowerMonotone(i: nat, j: nat)
    requires i <= j
    ensures Pow2(i) <= Pow2(j)
    decreases j - i
  {
    if i < j {
      PowerMonotone(i, j - 1);
    }
  }

  // ---- bits of positions ----

  lemma {:induction false} ShiftAdd(m: int, e: nat, i: nat)
    requires i <= e
    ensures Shift(m + Pow2(e), i) == Shift(m, i) + Pow2(e - i)
  {
    if i > 0 {
      ShiftAdd(m, e, i - 1);
    }
  }

  lemma LowerBitsSame(m: int, e: nat, i: nat)
    requires i < e
    ensures OddAt(m + Pow2(e), i) == OddAt(m, i)
  {
    ShiftAdd(m, e, i);
    assert Pow2(e - i) == 2 * Pow2(e - i - 1);
  }

  lemma SmallHasNoBit(m: nat, e: nat)
    requires m < Pow2(e)
    ensures Shift(m, e) == 0
  {
    LowBitsSplit(m, e);
    var s, p := Shift(m, e), Pow2(e);
    if s >= 1 {
      AtLeast(s, p);
    } else if s <= -1 {
      AtLeast(-s, p);
      NegativeProduct(s, p);
    }
  }

  lemma NegativeProduct(s: int, p: int)
    ensures (-s) * p == -(s * p)
  {
  }

  lemma TopBitSet(m: nat, e: nat)
    requires m < Pow2(e)
    ensures OddAt(m + Pow2(e), e)
  {
    ShiftAdd(m, e, e);
    SmallHasNoBit(m, e);
  }

  // ---- positions and what they spell ----

  /** The number of levels above the leaf at position `m`. */
  function LeafDepth(t: Tree, m: nat): (n: nat)
    requires m < |Leaves(t)|
  {
    match t
    case Leaf(_) => 0
    case Node(l, r) =>
      1 + if m < |Leaves(l)| then LeafDepth(l, m) else LeafDepth(r, m - |Leaves(l)|)
  }

  lemma {:induction false} LeafWithinDepth(t: Tree, m: nat)
    requires RfcShape(t) && m < |Leaves(t)|
    ensures LeafDepth(t, m) <= Depth(t)
    ensures Perfect(t, Depth(t)) ==> LeafDepth(t, m) == Depth(t)
  {
    match t
    case Leaf(_) =>
    case Node(l, r) =>
      PerfectFacts(l, Depth(l));
      if m < |Leaves(l)| {
        LeafWithinDepth(l, m);
      } else {
        LeafWithinDepth(r, m - |Leaves(l)|);
        if Perfect(t, Depth(t)) {
          PerfectFacts(r, Depth(l));
        }
      }
  }

  lemma {:induction false} AuditPathLength(sha: Hash, t: Tree, m: nat)
    requires m < |Leaves(t)|
    ensures |AuditPath(sha, t, m)| == LeafDepth(t, m)
  {
    match t
    case Leaf(_) =>
    case Node(l, r) =>
      if m < |Leaves(l)| {
        AuditPathLength(sha, l, m);
      } else {
        AuditPathLength(sha, r, m - |Leaves(l)|);
      }
  }

  /** Only the bits below `n` are read. */
  lemma {:induction false} SpellsIgnoresHighBits(t: Tree, n: nat, m: int, e: nat, entry: Bytes)
    requires n <= e
    ensures Spells(t, n, m + Pow2(e), entry) == Spells(t, n, m, entry)
  {
    if t.Node? && n > 0 {
      LowerBitsSame(m, e, n - 1);
      SpellsIgnoresHighBits(t.left, n - 1, m, e, entry);
      SpellsIgnoresHighBits(t.right, n - 1, m, e, entry);
    }
  }

  lemma {:induction false} PathIgnoresHighBits(sha: Hash, t: Tree, n: nat, m: int, e: nat)
    requires n <= e
    ensures SpelledPath(sha, t, n, m + Pow2(e)) == SpelledPath(sha, t, n, m)
  {
    if t.Node? && n > 0 {
      LowerBitsSame(m, e, n - 1);
      PathIgnoresHighBits(sha, t.left, n - 1, m, e);
      PathIgnoresHighBits(sha, t.right, n - 1, m, e);
    }
  }

  /** At full depth a position spells exactly the leaf it names. */
  lemma {:induction false} FullDepthNames(t: Tree, m: nat, entry: Bytes)
    requires RfcShape(t) && m < |Leaves(t)| && Spells(t, Depth(t), m, entry)
    ensures Leaves(t)[m] == entry
  {
    match t
    case Leaf(_) =>
    case Node(l, r) =>
      var d := Depth(l);
      PerfectFacts(l, d);
      DepthIsLogarithm(r);
      PowerMonotone(Depth(r), d);
      if m < |Leaves(l)| {
        SmallHasNoBit(m, d);
        FullDepthNames(l, m, entry);
      } else {
        var m' := m - Pow2(d);
        TopBitSet(m', d);
        SpellsIgnoresHighBits(r, d, m', d, entry);
        SpelledWithinDepth(r, d, m', entry);
        FullDepthNames(r, m', entry);
      }
  }

  lemma {:induction false} SpelledWithinDepth(t: Tree, n: nat, index: int, entry: Bytes)
    requires RfcShape(t) && Spells(t, n, index, entry)
    ensures n <= Depth(t)
    ensures Perfect(t, Depth(t)) ==> n == Depth(t)
  {
    if t.Node? {
      PerfectFacts(t.left, Depth(t.left));
      var child := if OddAt(index, n - 1) then t.right else t.left;
      SpelledWithinDepth(child, n - 1, index, entry);
      if Perfect(t, Depth(t)) {
        PerfectFacts(t.right, Depth(t.left));
      }
    }
  }

  /** A leaf at full depth is spelled by its own position, along its honest audit path. */
  lemma {:induction false} FullDepthSpelled(sha: Hash, t: Tree, m: nat)
    requires RfcShape(t) && m < |Leaves(t)| && LeafDepth(t, m) == Depth(t)
    ensures Spells(t, Depth(t), m, Leaves(t)[m])
    ensures SpelledPath(sha, t, Depth(t), m) == AuditPath(sha, t, m)
  {
    match t
    case Leaf(_) =>
    case Node(l, r) =>
      var d := Depth(l);
      PerfectFacts(l, d);
      if m < |Leaves(l)| {
        SmallHasNoBit(m, d);
        FullDepthSpelled(sha, l, m);
      } else {
        var m' := m - Pow2(d);
        LeafWithinDepth(r, m');
        DepthIsLogarithm(r);
        TopBitSet(m', d);
        FullDepthSpelled(sha, r, m');
        SpellsIgnoresHighBits(r, d, m', d, Leaves(r)[m']);
        PathIgnoresHighBits(sha, r, d, m', d);
      }
  }

  /** A position whose leaf is above full depth spells nothing at that leaf's depth. */
  lemma {:induction false} ShortSpellsNothing(t: Tree, m: nat, entry: Bytes)
    requires RfcShape(t) && m < |Leaves(t)| && Spells(t, LeafDepth(t, m), m, entry)
    ensures LeafDepth(t, m) == Depth(t)
  {
    match t
    case Leaf(_) =>
    case Node(l, r) =>
      var d := Depth(l);
      PerfectFacts(l, d);
      if m < |Leaves(l)| {
        LeafWithinDepth(l, m);
      } else {
        var m' := m - Pow2(d);
        var e := LeafDepth(r, m');
        LeafWithinDepth(r, m');
        if !OddAt(m, e) {
          SpelledWithinDepth(l, e, m, entry);
        } else if e < d {
          SpellsIgnoresHighBits(r, e, m', d, entry);
          ShortSpellsNothing(r, m', entry);
          BitAtDepth(r, m', d);
        }
      }
  }

  lemma BitAtDepth(r: Tree, m': nat, d: nat)
    requires RfcShape(r) && m' < |Leaves(r)| && Depth(r) < d
    ensures !OddAt(m' + Pow2(d), Depth(r))
  {
    DepthIsLogarithm(r);
    SmallHasNoBit(m', Depth(r));
    LowerBitsSame(m', d, Depth(r));
  }

  // ---- honest proofs ----

  /** For a tree of any size, the client accepts the honest RFC 9162 proof of a leaf if and only
      if its audit path is as long as the tree is deep. */
  lemma HonestAcceptedIffFullDepth(sha: Hash, t: Tree, m: nat)
    requires HashSized(sha) && RfcShape(t) && m < |Leaves(t)|
    requires CollisionFree(sha, TreeInputs(sha, t) + ProofInputs(sha, Leaves(t)[m], m, AuditPath(sha, t, m)))
    ensures var entry := Leaves(t)[m];
            Accepts(sha, Proof(sha(LeafInput(entry)), m, AuditPath(sha, t, m)), Root(sha, t), entry)
            <==> |AuditPath(sha, t, m)| == Depth(t)
  {
    var entry := Leaves(t)[m];
    var proof := Proof(sha(LeafInput(entry)), m, AuditPath(sha, t, m));
    AuditPathLength(sha, t, m);
    if |AuditPath(sha, t, m)| == Depth(t) {
      FullDepthSpelled(sha, t, m);
      SpelledFolds(sha, t, Depth(t), m, entry);
    } else if Accepts(sha, proof, Root(sha, t), entry) {
      AcceptedSpells(sha, t, proof, entry);
      ShortSpellsNothing(t, m, entry);
    }
  }

  // ---- any proof ----

  /** A check the client leaves out and that suffices: an accepted proof whose path is as long as
      the tree is deep, under an index in range, is for the entry at that index. */
  lemma FullDepthAcceptedIsIncluded(sha: Hash, t: Tree, proof: Proof, entry: Bytes)
    requires HashSized(sha) && RfcShape(t) && Accepted(sha, t, proof, entry)
    requires 0 <= proof.leafIndex < |Leaves(t)| && |proof.auditPath| == Depth(t)
    ensures Leaves(t)[proof.leafIndex] == entry
  {
    AcceptedSpells(sha, t, proof, entry);
    FullDepthNames(t, proof.leafIndex, entry);
  }

  /** The index under which the leaf at position `m` is accepted. */
  function SpelledIndex(t: Tree, m: nat): nat
    requires m < |Leaves(t)|
  {
    match t
    case Leaf(_) => 0
    case Node(l, r) =>
      if m < |Leaves(l)| then SpelledIndex(l, m)
      else
        var m' := m - |Leaves(l)|;
        SpelledIndex(r, m') + Pow2(LeafDepth(r, m'))
  }

  /** It has no more bits than there are levels above the leaf. */
  lemma {:induction false} SpelledIndexBound(t: Tree, m: nat)
    requires m < |Leaves(t)|
    ensures SpelledIndex(t, m) < Pow2(LeafDepth(t, m))
  {
    match t
    case Leaf(_) =>
    case Node(l, r) =>
      if m < |Leaves(l)| {
        SpelledIndexBound(l, m);
      } else {
        SpelledIndexBound(r, m - |Leaves(l)|);
      }
  }

  /** In a tree of any shape every leaf is spelled by some index. */
  lemma {:induction false} EveryLeafSpelled(t: Tree, m: nat)
    requires m < |Leaves(t)|
    ensures Spells(t, LeafDepth(t, m), SpelledIndex(t, m), Leaves(t)[m])
  {
    match t
    case Leaf(_) =>
    case Node(l, r) =>
      if m < |Leaves(l)| {
        EveryLeafSpelled(l, m);
        SpelledIndexBound(l, m);
        SmallHasNoBit(SpelledIndex(l, m), LeafDepth(l, m));
      } else {
        var m' := m - |Leaves(l)|;
        var e, index := LeafDepth(r, m'), SpelledIndex(r, m');
        EveryLeafSpelled(r, m');
        SpelledIndexBound(r, m');
        TopBitSet(index, e);
        SpellsIgnoresHighBits(r, e, index, e, Leaves(r)[m']);
      }
  }

  /** A leaf above full depth is accepted under a position that holds another leaf. */
  lemma ShortLeafMisplaced(sha: Hash, t: Tree, m: nat) returns (proof: Proof)
    requires HashSized(sha) && RfcShape(t) && CollisionFree(sha, TreeInputs(sha, t))
    requires m < |Leaves(t)| && LeafDepth(t, m) < Depth(t)
    ensures Accepted(sha, t, proof, Leaves(t)[m]) && 0 <= proof.leafIndex < m
  {
    var l := t.left;
    PerfectFacts(l, Depth(l));
    if m < |Leaves(l)| {
      LeafWithinDepth(l, m);
    }
    EveryLeafSpelled(t, m);
    SpelledIndexBound(t, m);
    PowerMonotone(LeafDepth(t, m), Depth(l));
    proof := SpelledAccepted(sha, t, LeafDepth(t, m), SpelledIndex(t, m), Leaves(t)[m]);
  }

  /** A tree that is not perfect has a leaf above full depth. */
  lemma {:induction false} HasShortLeaf(t: Tree) returns (m: nat)
    requires RfcShape(t) && |Leaves(t)| != Pow2(Depth(t))
    ensures m < |Leaves(t)| && LeafDepth(t, m) < Depth(t)
  {
    var l, r := t.left, t.right;
    PerfectFacts(l, Depth(l));
    var m';
    if Depth(r) < Depth(l) {
      m' := 0;
      LeafWithinDepth(r, 0);
    } else {
      m' := HasShortLeaf(r);
    }
    m := m' + |Leaves(l)|;
  }

  lemma {:induction false} FullSizeIsPerfect(t: Tree)
    requires RfcShape(t) && |Leaves(t)| == Pow2(Depth(t))
    ensures Perfect(t, Depth(t))
  {
    if t.Node? {
      var d := Depth(t.left);
      PerfectFacts(t.left, d);
      DepthIsLogarithm(t.right);
      if Depth(t.right) < d {
        PowerMonotone(Depth(t.right), d - 1);
      }
      FullSizeIsPerfect(t.right);
    }
  }

  /** Whatever is accepted under a position of the tree is the entry at that position. */
  ghost predicate NamesItsLeaf(sha: Hash, t: Tree) {
    forall proof, entry :: Accepted(sha, t, proof, entry) && 0 <= proof.leafIndex < |Leaves(t)| ==>
      Leaves(t)[proof.leafIndex] == entry
  }

  /** For a log of distinct entries every accepted proof names its leaf if and only if the number
      of entries is a power of two. */
  lemma NamesItsLeafIffPowerOfTwo(sha: Hash, t: Tree)
    requires HashSized(sha) && RfcShape(t) && CollisionFree(sha, TreeInputs(sha, t))
    requires forall i, j :: 0 <= i < j < |Leaves(t)| ==> Leaves(t)[i] != Leaves(t)[j]
    ensures NamesItsLeaf(sha, t) <==> exists k: nat :: |Leaves(t)| == Pow2(k)
  {
    if k: nat :| |Leaves(t)| == Pow2(k) {
      PowerIsDepth(t, k);
      forall proof, entry | Accepted(sha, t, proof, entry) && 0 <= proof.leafIndex < |Leaves(t)|
        ensures Leaves(t)[proof.leafIndex] == entry
      {
        FullSizeIsPerfect(t);
        AcceptedSpells(sha, t, proof, entry);
        SpelledWithinDepth(t, |proof.auditPath|, proof.leafIndex, entry);
        FullDepthNames(t, proof.leafIndex, entry);
      }
    } else {
      assert |Leaves(t)| != Pow2(Depth(t));
      var m := HasShortLeaf(t);
      var proof := ShortLeafMisplaced(sha, t, m);
      assert Leaves(t)[proof.leafIndex] != Leaves(t)[m];
    }
  }

  lemma PowerIsDepth(t: Tree, k: nat)
    requires RfcShape(t) && |Leaves(t)| == Pow2(k)
    ensures k == Depth(t)
  {
    DepthIsLogarithm(t);
    if k < Depth(t) {
      PowerMonotone(k, Depth(t) - 1);
    } else if k > Depth(t) {
      PowerMonotone(Depth(t) + 1, k);
    }
  }

  // ---- three entries ----

  /** The smallest tree the client gets wrong: of three entries, the last is never verified at its
      own position. */
  lemma ThirdOfThreeRejected(sha: Hash, a: Bytes, b: Bytes, c: Bytes, t: Tree)
    requires HashSized(sha) && t == Node(Node(Leaf(a), Leaf(b)), Leaf(c))
    requires CollisionFree(sha, TreeInputs(sha, t) + ProofInputs(sha, c, 2, AuditPath(sha, t, 2)))
    ensures RfcShape(t) && Leaves(t) == [a, b, c]
    ensures !Accepts(sha, Proof(sha(LeafInput(c)), 2, AuditPath(sha, t, 2)), Root(sha, t), c)
  {
    ThreeLeaves(sha, a, b, c, t);
    HonestAcceptedIffFullDepth(sha, t, 2);
  }

  /** It is accepted at the second position instead, with the root of the first two as its path. */
  lemma ThirdOfThreeMisplaced(sha: Hash, a: Bytes, b: Bytes, c: Bytes, t: Tree)
    requires HashSized(sha) && t == Node(Node(Leaf(a), Leaf(b)), Leaf(c))
    ensures RfcShape(t) && Leaves(t) == [a, b, c]
    ensures Accepts(sha, Proof(sha(LeafInput(c)), 1, [Root(sha, t.left)]), Root(sha, t), c)
  {
    ThreeLeaves(sha, a, b, c, t);
    assert OddAt(1, 0) by {
      assert Shift(1, 0) == 1;
    }
    assert Spells(t.right, 0, 1, c) && SpelledPath(sha, t.right, 0, 1) == [];
    assert Spells(t, 1, 1, c) && SpelledPath(sha, t, 1, 1) == [Root(sha, t.left)];
    SpelledFolds(sha, t, 1, 1, c);
  }

  lemma ThreeLeaves(sha: Hash, a: Bytes, b: Bytes, c: Bytes, t: Tree)
    requires t == Node(Node(Leaf(a), Leaf(b)), Leaf(c))
    ensures RfcShape(t) && Leaves(t) == [a, b, c] && Depth(t) == 2
    ensures AuditPath(sha, t, 2) == [Root(sha, t.left)]
  {
    assert Perfect(Leaf(a), 0) && Perfect(Leaf(b), 0) && Perfect(t.left, 1);
    assert Leaves(t.left) == [a, b] && Leaves(t.right) == [c];
    assert AuditPath(sha, Leaf(c), 0) == [];
  }
}
