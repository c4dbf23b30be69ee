/** `ReputationLogClient.verifyInclusion`: the audit-path fold as the client computes it, and
    exactly which proofs it accepts against the root of a Merkle tree of any shape. The hash is
    a parameter; what is needed of it is that it has no collision among the strings that are
    actually hashed. */
module Inclusion {
  import opened Common
  import opened ByteStrings

  type Hash = Bytes -> Bytes

  const HASH_SIZE := 32

  ghost predicate HashSized(sha: Hash) {
    forall x :: |sha(x)| == HASH_SIZE
  }

  function LeafInput(entry: Bytes): Bytes {
    [0x00] + entry
  }

  function NodeInput(left: Bytes, right: Bytes): Bytes {
    [0x01] + left + right
  }

  function Zeros(n: nat): Bytes {
    seq(n, _ => 0)
  }

  /** A supplied sibling as it lands in its 32-byte half of the 65-byte buffer. */
  function Half(sibling: Bytes): (r: Bytes)
    ensures |r| == HASH_SIZE
    ensures |sibling| == HASH_SIZE ==> r == sibling
  {
    (sibling + Zeros(HASH_SIZE))[..HASH_SIZE]
  }

  /** The buffer for one level, or `None` when copying the sibling into it throws. On the left
      a sibling may run over into the right half, which is written afterwards. */
  function LevelInput(node: Bytes, sibling: Bytes, odd: bool): Option<Bytes> {
    if !odd then
      if |sibling| > HASH_SIZE then None else Some(NodeInput(node, Half(sibling)))
    else
      if |sibling| > 2 * HASH_SIZE then None else Some(NodeInput(Half(sibling), node))
  }

  /** `index >> i` on a big integer: floor halving, also below zero. */
  function Shift(index: int, i: nat): int {
    if i == 0 then index else Shift(index, i - 1) / 2
  }

  predicate OddAt(index: int, i: nat) {
    Shift(index, i) % 2 == 1
  }

  /** The fold over the first `|path|` levels. */
  function FoldUp(sha: Hash, leaf: Bytes, index: int, path: seq<Bytes>): Option<Bytes> {
    if path == [] then Some(leaf)
    else
      var i := |path| - 1;
      var below := FoldUp(sha, leaf, index, path[..i]);
      if below.None? then None
      else
        var input := LevelInput(below.value, path[i], OddAt(index, i));
        if input.None? then None else Some(sha(input.value))
  }

  datatype Proof = Proof(leafHash: Bytes, leafIndex: int, auditPath: seq<Bytes>)

  function Accepts(sha: Hash, proof: Proof, root: Bytes, entry: Bytes): bool {
    sha(LeafInput(entry)) == proof.leafHash &&
    FoldUp(sha, sha(LeafInput(entry)), proof.leafIndex, proof.auditPath) == Some(root)
  }

  /** `None` is the exception of an oversized sibling. */
  method VerifyInclusion(sha: Hash, proof: Proof, root: Bytes, entry: Bytes) returns (r: Option<bool>)
    ensures r == Some(true) <==> Accepts(sha, proof, root, entry)
    ensures r.None? <==> sha(LeafInput(entry)) == proof.leafHash &&
                         FoldUp(sha, sha(LeafInput(entry)), proof.leafIndex, proof.auditPath).None?
  {
    var computed := sha(LeafInput(entry));
    if computed != proof.leafHash {
      return Some(false);
    }
    var node := computed;
    var rest := proof.leafIndex;
    for i := 0 to |proof.auditPath|
      invariant rest == Shift(proof.leafIndex, i)
      invariant FoldUp(sha, computed, proof.leafIndex, proof.auditPath[..i]) == Some(node)
    {
      assert proof.auditPath[..i + 1][..i] == proof.auditPath[..i];
      var input := LevelInput(node, proof.auditPath[i], rest % 2 == 1);
      if input.None? {
        FoldThrows(sha, computed, proof.leafIndex, proof.auditPath, i + 1);
        return None;
      }
      node := sha(input.value);
      rest := rest / 2;
    }
    assert proof.auditPath[..|proof.auditPath|] == proof.auditPath;
    return Some(node == root);
  }

  lemma {:induction false} FoldThrows(sha: Hash, leaf: Bytes, index: int, path: seq<Bytes>, n: nat)
    requires n <= |path| && FoldUp(sha, leaf, index, path[..n]).None?
    ensures FoldUp(sha, leaf, index, path).None?
    decreases |path| - n
  {
    if n == |path| {
      assert path[..n] == path;
    } else {
      assert path[..n + 1][..n] == path[..n];
      FoldThrows(sha, leaf, index, path, n + 1);
    }
  }

  // ---- trees ----

  datatype Tree = Leaf(entry: Bytes) | Node(left: Tree, right: Tree)

  /** The Merkle tree hash, with distinct prefixes for leaves and nodes. */
  function Root(sha: Hash, t: Tree): Bytes {
    match t
    case Leaf(entry) => sha(LeafInput(entry))
    case Node(l, r) => sha(NodeInput(Root(sha, l), Root(sha, r)))
  }

  function Leaves(t: Tree): (r: seq<Bytes>)
    ensures |r| > 0
  {
    match t
    case Leaf(entry) => [entry]
    case Node(l, r) => Leaves(l) + Leaves(r)
  }

  // ---- what a proof spells ----

  /** Read as `n` bits, the highest at the root, `index` leads down to a leaf with `entry`, and
      the bits are used up exactly there. */
  predicate Spells(t: Tree, n: nat, index: int, entry: Bytes) {
    match t
    case Leaf(e) => n == 0 && e == entry
    case Node(l, r) => n > 0 && Spells(if OddAt(index, n - 1) then r else l, n - 1, index, entry)
  }

  /** The siblings met on the way down, bottom up. */
  function SpelledPath(sha: Hash, t: Tree, n: nat, index: int): seq<Bytes> {
    match t
    case Leaf(_) => []
    case Node(l, r) =>
      if n == 0 then []
      else if OddAt(index, n - 1) then SpelledPath(sha, r, n - 1, index) + [Root(sha, l)]
      else SpelledPath(sha, l, n - 1, index) + [Root(sha, r)]
  }

  /** The strings hashed to build the tree. */
  function TreeInputs(sha: Hash, t: Tree): set<Bytes> {
    match t
    case Leaf(entry) => {LeafInput(entry)}
    case Node(l, r) => {NodeInput(Root(sha, l), Root(sha, r))} + TreeInputs(sha, l) + TreeInputs(sha, r)
  }

  /** The strings hashed while checking a proof. */
  function ProofInputs(sha: Hash, entry: Bytes, index: int, path: seq<Bytes>): set<Bytes> {
    if path == [] then {LeafInput(entry)}
    else
      var i := |path| - 1;
      var below := FoldUp(sha, sha(LeafInput(entry)), index, path[..i]);
      ProofInputs(sha, entry, index, path[..i]) +
      (if below.Some? && LevelInput(below.value, path[i], OddAt(index, i)).Some?
       then {LevelInput(below.value, path[i], OddAt(index, i)).value} else {})
  }

  ghost predicate CollisionFree(sha: Hash, inputs: set<Bytes>) {
    forall x, y :: x in inputs && y in inputs && sha(x) == sha(y) ==> x == y
  }

  lemma FoldSize(sha: Hash, leaf: Bytes, index: int, path: seq<Bytes>)
    requires HashSized(sha) && |leaf| == HASH_SIZE
    ensures FoldUp(sha, leaf, index, path).Some? ==> |FoldUp(sha, leaf, index, path).value| == HASH_SIZE
  {
  }

  lemma RootSize(sha: Hash, t: Tree)
    requires HashSized(sha)
    ensures |Root(sha, t)| == HASH_SIZE
  {
  }

  lemma NodeInputInjective(l: Bytes, r: Bytes, l': Bytes, r': Bytes)
    requires |l| == |l'| == HASH_SIZE && NodeInput(l, r) == NodeInput(l', r')
    ensures l == l' && r == r'
  {
    assert l == NodeInput(l, r)[1..1 + HASH_SIZE] && r == NodeInput(l, r)[1 + HASH_SIZE..];
    assert l' == NodeInput(l', r')[1..1 + HASH_SIZE] && r' == NodeInput(l', r')[1 + HASH_SIZE..];
  }

  lemma LeafInputInjective(a: Bytes, b: Bytes)
    requires LeafInput(a) == LeafInput(b)
    ensures a == b
  {
    assert a == LeafInput(a)[1..] && b == LeafInput(b)[1..];
  }

  /** The prefixes keep leaves and nodes apart. */
  lemma PrefixesDiffer(entry: Bytes, l: Bytes, r: Bytes)
    ensures LeafInput(entry) != NodeInput(l, r)
  {
    assert LeafInput(entry)[0] == 0x00 && NodeInput(l, r)[0] == 0x01;
  }

  /** The last level of an accepted fold. */
  lemma TopLevel(sha: Hash, entry: Bytes, index: int, path: seq<Bytes>) returns (below: Bytes, l: Bytes, r: Bytes)
    requires HashSized(sha) && path != []
    requires FoldUp(sha, sha(LeafInput(entry)), index, path).Some?
    ensures FoldUp(sha, sha(LeafInput(entry)), index, path[..|path| - 1]) == Some(below)
    ensures |l| == |r| == HASH_SIZE && NodeInput(l, r) in ProofInputs(sha, entry, index, path)
    ensures FoldUp(sha, sha(LeafInput(entry)), index, path) == Some(sha(NodeInput(l, r)))
    ensures below == if OddAt(index, |path| - 1) then r else l
    ensures ProofInputs(sha, entry, index, path[..|path| - 1]) <= ProofInputs(sha, entry, index, path)
  {
    var i := |path| - 1;
    below := FoldUp(sha, sha(LeafInput(entry)), index, path[..i]).value;
    FoldSize(sha, sha(LeafInput(entry)), index, path[..i]);
    l, r := if OddAt(index, i) then Half(path[i]) else below, if OddAt(index, i) then below else Half(path[i]);
  }

  lemma {:induction false} LeafStart(sha: Hash, entry: Bytes, index: int, path: seq<Bytes>)
    ensures LeafInput(entry) in ProofInputs(sha, entry, index, path)
  {
    if path != [] {
      LeafStart(sha, entry, index, path[..|path| - 1]);
    }
  }

  /** A path that folds to the root spells the way to a leaf with the entry it starts from. */
  lemma {:induction false} FoldSpells(sha: Hash, t: Tree, entry: Bytes, index: int, path: seq<Bytes>, all: set<Bytes>)
    requires HashSized(sha) && CollisionFree(sha, all)
    requires TreeInputs(sha, t) <= all && ProofInputs(sha, entry, index, path) <= all
    requires FoldUp(sha, sha(LeafInput(entry)), index, path) == Some(Root(sha, t))
    ensures Spells(t, |path|, index, entry)
    decreases t
  {
    LeafStart(sha, entry, index, path);
    if path == [] {
      match t
      case Leaf(e) => LeafInputInjective(e, entry);
      case Node(l, r) => PrefixesDiffer(entry, Root(sha, l), Root(sha, r));
    } else {
      var below, l, r := TopLevel(sha, entry, index, path);
      match t
      case Leaf(e) => PrefixesDiffer(e, l, r);
      case Node(tl, tr) =>
        RootSize(sha, tl);
        NodeInputInjective(l, r, Root(sha, tl), Root(sha, tr));
        var child := if OddAt(index, |path| - 1) then tr else tl;
        FoldSpells(sha, child, entry, index, path[..|path| - 1], all);
    }
  }

  /** What is spelled folds to the root, and hashes nothing but what the tree hashes. */
  lemma {:induction false} SpelledFolds(sha: Hash, t: Tree, n: nat, index: int, entry: Bytes)
    requires HashSized(sha) && Spells(t, n, index, entry)
    ensures var path := SpelledPath(sha, t, n, index);
            && |path| == n
            && FoldUp(sha, sha(LeafInput(entry)), index, path) == Some(Root(sha, t))
            && ProofInputs(sha, entry, index, path) <= TreeInputs(sha, t)
  {
    if t.Node? {
      var odd := OddAt(index, n - 1);
      var child := if odd then t.right else t.left;
      var sibling := Root(sha, if odd then t.left else t.right);
      var lower := SpelledPath(sha, child, n - 1, index);
      SpelledFolds(sha, child, n - 1, index, entry);
      RootSize(sha, if odd then t.left else t.right);
      assert SpelledPath(sha, t, n, index) == lower + [sibling];
      LastLevel(sha, entry, index, lower, sibling, Root(sha, child));
    }
  }

  /** One more level on top of a fold. */
  lemma LastLevel(sha: Hash, entry: Bytes, index: int, lower: seq<Bytes>, sibling: Bytes, node: Bytes)
    requires FoldUp(sha, sha(LeafInput(entry)), index, lower) == Some(node) && |sibling| == HASH_SIZE
    ensures var input := if OddAt(index, |lower|) then NodeInput(sibling, node) else NodeInput(node, sibling);
            && FoldUp(sha, sha(LeafInput(entry)), index, lower + [sibling]) == Some(sha(input))
            && ProofInputs(sha, entry, index, lower + [sibling]) == ProofInputs(sha, entry, index, lower) + {input}
  {
    assert (lower + [sibling])[..|lower|] == lower;
  }

  /** A proof the client accepts although nothing it hashes collides. */
  ghost predicate Accepted(sha: Hash, t: Tree, proof: Proof, entry: Bytes) {
    && CollisionFree(sha, TreeInputs(sha, t) + ProofInputs(sha, entry, proof.leafIndex, proof.auditPath))
    && Accepts(sha, proof, Root(sha, t), entry)
  }

  ghost predicate Provable(sha: Hash, t: Tree, n: nat, index: int, entry: Bytes) {
    exists proof :: Accepted(sha, t, proof, entry) && proof.leafIndex == index && |proof.auditPath| == n
  }

  /** Exactly what is accepted, for a tree of any shape: an entry under an index with a path of
      length `n` if and only if `n` bits of the index lead to a leaf with that entry. */
  lemma ProvableIffSpelled(sha: Hash, t: Tree, n: nat, index: int, entry: Bytes)
    requires HashSized(sha) && CollisionFree(sha, TreeInputs(sha, t))
    ensures Provable(sha, t, n, index, entry) <==> Spells(t, n, index, entry)
  {
    if Provable(sha, t, n, index, entry) {
      var proof :| Accepted(sha, t, proof, entry) && proof.leafIndex == index && |proof.auditPath| == n;
      AcceptedSpells(sha, t, proof, entry);
    }
    if Spells(t, n, index, entry) {
      var proof := SpelledAccepted(sha, t, n, index, entry);
    }
  }

  lemma AcceptedSpells(sha: Hash, t: Tree, proof: Proof, entry: Bytes)
    requires HashSized(sha) && Accepted(sha, t, proof, entry)
    ensures Spells(t, |proof.auditPath|, proof.leafIndex, entry)
  {
    FoldSpells(sha, t, entry, proof.leafIndex, proof.auditPath,
               TreeInputs(sha, t) + ProofInputs(sha, entry, proof.leafIndex, proof.auditPath));
  }

  lemma SpelledAccepted(sha: Hash, t: Tree, n: nat, index: int, entry: Bytes) returns (proof: Proof)
    requires HashSized(sha) && CollisionFree(sha, TreeInputs(sha, t)) && Spells(t, n, index, entry)
    ensures proof == Proof(sha(LeafInput(entry)), index, SpelledPath(sha, t, n, index))
    ensures |proof.auditPath| == n && Accepted(sha, t, proof, entry)
  {
    SpelledFolds(sha, t, n, index, entry);
    proof := Proof(sha(LeafInput(entry)), index, SpelledPath(sha, t, n, index));
    assert TreeInputs(sha, t) + ProofInputs(sha, entry, index, proof.auditPath) == TreeInputs(sha, t);
  }

  // ---- perfect trees ----

  ghost predicate Perfect(t: Tree, k: nat) {
    match t
    case Leaf(_) => k == 0
    case Node(l, r) => k > 0 && Perfect(l, k - 1) && Perfect(r, k - 1)
  }

  /** In a perfect tree of depth `k` the bits lead to the leaf at the index modulo its size. */
  lemma {:induction false} PerfectSpells(t: Tree, k: nat, n: nat, index: int, entry: Bytes)
    requires Perfect(t, k)
    ensures |Leaves(t)| == Pow2(k)
    ensures Spells(t, n, index, entry) <==> n == k && Leaves(t)[index % Pow2(k)] == entry
  {
    LowBitsAreModulo(index, k);
    if k > 0 {
      var m := if n > 0 then n - 1 else 0;
      PerfectSpells(t.left, k - 1, m, index, entry);
      PerfectSpells(t.right, k - 1, m, index, entry);
      LowBitsAreModulo(index, k - 1);
    }
  }

  /** Against the root of a perfect tree exactly the proofs of the tree's depth for the entry at
      the index modulo the number of leaves can be accepted. */
  lemma PerfectProvableIff(sha: Hash, t: Tree, k: nat, n: nat, index: int, entry: Bytes)
    requires HashSized(sha) && Perfect(t, k) && CollisionFree(sha, TreeInputs(sha, t))
    ensures |Leaves(t)| == Pow2(k)
    ensures Provable(sha, t, n, index, entry) <==> n == k && Leaves(t)[index % Pow2(k)] == entry
  {
    PerfectSpells(t, k, n, index, entry);
    ProvableIffSpelled(sha, t, n, index, entry);
  }

  lemma AcceptedIsIncluded(sha: Hash, t: Tree, k: nat, proof: Proof, entry: Bytes)
    requires HashSized(sha) && Perfect(t, k) && Accepted(sha, t, proof, entry)
    ensures |proof.auditPath| == k && |Leaves(t)| == Pow2(k)
    ensures Leaves(t)[proof.leafIndex % Pow2(k)] == entry
  {
    AcceptedSpells(sha, t, proof, entry);
    PerfectSpells(t, k, |proof.auditPath|, proof.leafIndex, entry);
  }

  /** For every leaf of a perfect tree, and every index congruent to its position, the honest
      path is accepted. */
  lemma HonestProofAccepted(sha: Hash, t: Tree, k: nat, index: int)
    requires HashSized(sha) && Perfect(t, k)
    ensures |Leaves(t)| == Pow2(k)
    ensures var entry := Leaves(t)[index % Pow2(k)];
            Accepts(sha, Proof(sha(LeafInput(entry)), index, SpelledPath(sha, t, k, index)), Root(sha, t), entry)
  {
    PerfectSpells(t, k, k, index, Leaves(t)[0]);
    var entry := Leaves(t)[index % Pow2(k)];
    PerfectSpells(t, k, k, index, entry);
    SpelledFolds(sha, t, k, index, entry);
  }

  // ---- index arithmetic ----

  function Pow2(k: nat): (p: nat)
    ensures p > 0
  {
    if k == 0 then 1 else 2 * Pow2(k - 1)
  }

  function LowBits(index: int, k: nat): (r: nat)
    ensures r < Pow2(k)
  {
    if k == 0 then 0 else LowBits(index, k - 1) + (if OddAt(index, k - 1) then Pow2(k - 1) else 0)
  }

  lemma {:induction false} LowBitsSplit(index: int, k: nat)
    ensures index == LowBits(index, k) + Shift(index, k) * Pow2(k)
  {
    if k > 0 {
      LowBitsSplit(index, k - 1);
      var s, p, h := Shift(index, k - 1), Pow2(k - 1), Shift(index, k);
      if OddAt(index, k - 1) {
        assert s == 2 * h + 1;
        Double(h, p);
      } else {
        assert s == 2 * h;
        Double(h, p);
      }
    }
  }

  lemma Double(h: int, p: int)
    ensures (2 * h) * p == h * (2 * p) && (2 * h + 1) * p == h * (2 * p) + p
  {
  }

  /** The low bits the fold reads are the index modulo the size of the tree. */
  lemma LowBitsAreModulo(index: int, k: nat)
    ensures LowBits(index, k) == index % Pow2(k)
  {
    LowBitsSplit(index, k);
    ModuloUnique(index, Pow2(k), Shift(index, k), LowBits(index, k));
  }

  lemma ModuloUnique(n: int, m: int, q: int, r: int)
    requires 0 <= r < m && n == r + q * m
    ensures n % m == r
  {
    var q', r' := n / m, n % m;
    assert n == r' + q' * m;
    var d := q - q';
    assert d * m == q * m - q' * m;
    if d >= 1 {
      AtLeast(d, m);
    } else if d <= -1 {
      AtLeast(-d, m);
    }
  }

  lemma AtLeast(d: int, m: int)
    requires d >= 1 && m > 0
    ensures d * m >= m
  {
  }
}
