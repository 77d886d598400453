/**
 * RFC 6962 Merkle trees: the root, inclusion proofs, and their verification.
 *
 * The hash function is a parameter. No property of it is assumed, so each security result
 * reads "the conclusion holds, or two different strings that were really hashed collide".
 */
module Merkle {
  import opened Bytes

  type Hash = Bytes -> Bytes

  /** Like SHA-256, the function returns 32 bytes for every input. */
  ghost predicate IsHash(h: Hash) { forall b :: |h(b)| == 32 }

  const LEAF_PREFIX: Bytes := [0]
  const NODE_PREFIX: Bytes := [1]

  function LeafInput(leaf: Bytes): Bytes { LEAF_PREFIX + leaf }

  function NodeInput(left: Bytes, right: Bytes): Bytes { NODE_PREFIX + left + right }

  function LeafHash(h: Hash, leaf: Bytes): Bytes { h(LeafInput(leaf)) }

  function NodeHash(h: Hash, left: Bytes, right: Bytes): Bytes { h(NodeInput(left, right)) }

  // ---------------------------------------------------------------------------------------
  // The split point
  // ---------------------------------------------------------------------------------------

  function BitLength(n: nat): nat { if n == 0 then 0 else 1 + BitLength(n / 2) }

  function Pow2(e: nat): (p: nat)
    ensures p >= 1
  {
    if e == 0 then 1 else 2 * Pow2(e - 1)
  }

  lemma {:induction false} BitLengthBounds(n: nat)
    requires n >= 1
    ensures BitLength(n) >= 1
    ensures Pow2(BitLength(n) - 1) <= n < Pow2(BitLength(n))
  {
    if n > 1 { BitLengthBounds(n / 2); }
  }

  /** `1 << (count - 1).bit_length() - 1`, where the shift binds weaker than the minus. */
  function LargestPowerOfTwoBelow(count: nat): (k: nat)
    requires count >= 2
    ensures 1 <= k < count <= 2 * k
  {
    BitLengthBounds(count - 1);
    Pow2(BitLength(count - 1) - 1)
  }

  ghost predicate IsPowerOfTwo(k: nat) { exists e: nat :: k == Pow2(e) }

  lemma {:induction false} Pow2Monotone(a: nat, b: nat)
    requires a <= b
    ensures Pow2(a) <= Pow2(b)
  {
    if a < b { Pow2Monotone(a, b - 1); }
  }

  lemma SplitIsLargestPowerOfTwoBelow(count: nat)
    requires count >= 2
    ensures IsPowerOfTwo(LargestPowerOfTwoBelow(count))
    ensures forall p: nat :: IsPowerOfTwo(p) && p < count ==> p <= LargestPowerOfTwoBelow(count)
  {
    var top := BitLength(count - 1) - 1;
    BitLengthBounds(count - 1);
    forall p: nat | IsPowerOfTwo(p) && p < count ensures p <= LargestPowerOfTwoBelow(count) {
      var e: nat :| p == Pow2(e);
      if e > top { Pow2Monotone(top + 1, e); }
      Pow2Monotone(e, if e > top then e else top);
    }
  }

  // ---------------------------------------------------------------------------------------
  // The root
  // ---------------------------------------------------------------------------------------

  function RootOfHashes(h: Hash, hashes: seq<Bytes>): Bytes
    decreases |hashes|
  {
    if |hashes| == 0 then h([])
    else if |hashes| == 1 then hashes[0]
    else
      var split := LargestPowerOfTwoBelow(|hashes|);
      NodeHash(h, RootOfHashes(h, hashes[..split]), RootOfHashes(h, hashes[split..]))
  }

  function LeafHashes(h: Hash, leaves: seq<Bytes>): (hashes: seq<Bytes>)
    ensures |hashes| == |leaves|
  {
    seq(|leaves|, i requires 0 <= i < |leaves| => LeafHash(h, leaves[i]))
  }

  function MerkleRoot(h: Hash, leaves: seq<Bytes>): Bytes { RootOfHashes(h, LeafHashes(h, leaves)) }

  // ---------------------------------------------------------------------------------------
  // The tree behind a leaf sequence
  // ---------------------------------------------------------------------------------------

  datatype Tree = Leaf(data: Bytes) | Node(left: Tree, right: Tree)

  ghost function TreeOf(d: seq<Bytes>): (t: Tree)
    requires |d| >= 1
    ensures Size(t) == |d|
    decreases |d|
  {
    if |d| == 1 then Leaf(d[0])
    else
      var k := LargestPowerOfTwoBelow(|d|);
      Node(TreeOf(d[..k]), TreeOf(d[k..]))
  }

  ghost function Size(t: Tree): (n: nat)
    ensures n >= 1
  {
    match t
    case Leaf(_) => 1
    case Node(left, right) => Size(left) + Size(right)
  }

  /** The leaf at a position. */
  ghost function At(t: Tree, i: nat): Bytes
    requires i < Size(t)
  {
    match t
    case Leaf(data) => data
    case Node(left, right) => if i < Size(left) then At(left, i) else At(right, i - Size(left))
  }

  lemma {:induction false} AtTreeOf(d: seq<Bytes>, i: nat)
    requires i < |d|
    ensures At(TreeOf(d), i) == d[i]
    decreases |d|
  {
    if |d| >= 2 {
      var k := LargestPowerOfTwoBelow(|d|);
      if i < k { AtTreeOf(d[..k], i); } else { AtTreeOf(d[k..], i - k); }
    }
  }

  /** Every node splits its leaves as RFC 6962 prescribes. */
  ghost predicate Balanced(t: Tree) {
    t.Node? ==> Size(t.left) == LargestPowerOfTwoBelow(Size(t)) && Balanced(t.left) && Balanced(t.right)
  }

  lemma {:induction false} TreeOfBalanced(d: seq<Bytes>)
    requires |d| >= 1
    ensures Balanced(TreeOf(d))
    decreases |d|
  {
    if |d| >= 2 {
      var k := LargestPowerOfTwoBelow(|d|);
      TreeOfBalanced(d[..k]);
      TreeOfBalanced(d[k..]);
    }
  }

  ghost function TopInput(h: Hash, t: Tree): Bytes
    decreases t, 0
  {
    match t
    case Leaf(data) => LeafInput(data)
    case Node(left, right) => NodeInput(TreeRoot(h, left), TreeRoot(h, right))
  }

  ghost function TreeRoot(h: Hash, t: Tree): Bytes
    decreases t, 1
  {
    h(TopInput(h, t))
  }

  lemma LeafHashesSlice(h: Hash, leaves: seq<Bytes>, k: nat)
    requires k <= |leaves|
    ensures LeafHashes(h, leaves)[..k] == LeafHashes(h, leaves[..k])
    ensures LeafHashes(h, leaves)[k..] == LeafHashes(h, leaves[k..])
  {
  }

  lemma {:induction false} RootIsTreeRoot(h: Hash, leaves: seq<Bytes>)
    requires leaves != []
    ensures MerkleRoot(h, leaves) == TreeRoot(h, TreeOf(leaves))
    decreases |leaves|
  {
    if |leaves| >= 2 {
      var k := LargestPowerOfTwoBelow(|leaves|);
      LeafHashesSlice(h, leaves, k);
      RootIsTreeRoot(h, leaves[..k]);
      RootIsTreeRoot(h, leaves[k..]);
    }
  }

  // ---------------------------------------------------------------------------------------
  // RFC 6962, as it is written
  // ---------------------------------------------------------------------------------------

  /** The largest power of two smaller than `n`. */
  ghost predicate IsSplit(k: nat, n: nat) {
    IsPowerOfTwo(k) && k < n && forall p: nat :: IsPowerOfTwo(p) && p < n ==> p <= k
  }

  lemma SplitExists(n: nat)
    requires n >= 2
    ensures IsSplit(LargestPowerOfTwoBelow(n), n)
    ensures forall k: nat :: IsSplit(k, n) ==> k == LargestPowerOfTwoBelow(n)
  {
    SplitIsLargestPowerOfTwoBelow(n);
  }

  ghost function RfcSplit(n: nat): (k: nat)
    requires n >= 2
    ensures k == LargestPowerOfTwoBelow(n)
  {
    SplitExists(n);
    var k: nat :| IsSplit(k, n); k
  }

  /** MTH of section 2.1. */
  ghost function Mth(h: Hash, d: seq<Bytes>): Bytes
    decreases |d|
  {
    if |d| == 0 then h([])
    else if |d| == 1 then h([0] + d[0])
    else
      var k := RfcSplit(|d|);
      h([1] + Mth(h, d[..k]) + Mth(h, d[k..]))
  }

  /** PATH(m, D[n]) of section 2.1.1. */
  ghost function RfcPath(h: Hash, m: nat, d: seq<Bytes>): seq<Bytes>
    requires m < |d|
    decreases |d|
  {
    if |d| == 1 then []
    else
      var k := RfcSplit(|d|);
      if m < k then RfcPath(h, m, d[..k]) + [Mth(h, d[k..])]
      else RfcPath(h, m - k, d[k..]) + [Mth(h, d[..k])]
  }

  lemma {:induction false} MthIsTreeRoot(h: Hash, d: seq<Bytes>)
    requires |d| >= 1
    ensures Mth(h, d) == TreeRoot(h, TreeOf(d))
    decreases |d|
  {
    if |d| >= 2 {
      var k := LargestPowerOfTwoBelow(|d|);
      MthIsTreeRoot(h, d[..k]);
      MthIsTreeRoot(h, d[k..]);
    }
  }

  lemma RootIsMth(h: Hash, leaves: seq<Bytes>)
    ensures MerkleRoot(h, leaves) == Mth(h, leaves)
  {
    if leaves != [] {
      RootIsTreeRoot(h, leaves);
      MthIsTreeRoot(h, leaves);
    }
  }

  // ---------------------------------------------------------------------------------------
  // Collisions between strings that were really hashed
  // ---------------------------------------------------------------------------------------

  ghost predicate Collision(h: Hash, a: Bytes, b: Bytes) { a != b && h(a) == h(b) }

  ghost predicate CollisionBetween(h: Hash, xs: set<Bytes>, ys: set<Bytes>) {
    exists a, b :: a in xs && b in ys && Collision(h, a, b)
  }

  ghost function TreeInputs(h: Hash, t: Tree): set<Bytes> {
    match t
    case Leaf(_) => {TopInput(h, t)}
    case Node(left, right) => {TopInput(h, t)} + TreeInputs(h, left) + TreeInputs(h, right)
  }

  /** Every string hashed while computing the root of `d`. */
  ghost function HashedBy(h: Hash, d: seq<Bytes>): set<Bytes> {
    if d == [] then {[]} else TreeInputs(h, TreeOf(d))
  }

  lemma NodeInputInjective(l: Bytes, r: Bytes, l': Bytes, r': Bytes)
    requires |l| == |l'| == 32
    requires NodeInput(l, r) == NodeInput(l', r')
    ensures l == l' && r == r'
  {
    var a, b := NodeInput(l, r), NodeInput(l', r');
    assert l == a[1..33] && r == a[33..];
    assert l' == b[1..33] && r' == b[33..];
  }

  lemma LeafInputInjective(x: Bytes, y: Bytes)
    requires LeafInput(x) == LeafInput(y)
    ensures x == y
  {
    assert LeafInput(x)[1..] == x && LeafInput(y)[1..] == y;
  }

  lemma CollisionGrows(h: Hash, xs: set<Bytes>, ys: set<Bytes>, xs': set<Bytes>, ys': set<Bytes>)
    requires CollisionBetween(h, xs, ys) && xs <= xs' && ys <= ys'
    ensures CollisionBetween(h, xs', ys')
  {
    var a, b :| a in xs && b in ys && Collision(h, a, b);
  }

  lemma {:induction false} TreeRootBinds(h: Hash, t: Tree, u: Tree)
    requires IsHash(h)
    requires TreeRoot(h, t) == TreeRoot(h, u) && t != u
    ensures CollisionBetween(h, TreeInputs(h, t), TreeInputs(h, u))
  {
    if TopInput(h, t) != TopInput(h, u) {
      assert Collision(h, TopInput(h, t), TopInput(h, u));
    } else if t.Leaf? && u.Leaf? {
      LeafInputInjective(t.data, u.data);
    } else {
      assert TopInput(h, t)[0] == TopInput(h, u)[0];
      NodeInputInjective(TreeRoot(h, t.left), TreeRoot(h, t.right), TreeRoot(h, u.left), TreeRoot(h, u.right));
      var t', u' := if t.left != u.left then t.left else t.right, if t.left != u.left then u.left else u.right;
      TreeRootBinds(h, t', u');
      CollisionGrows(h, TreeInputs(h, t'), TreeInputs(h, u'), TreeInputs(h, t), TreeInputs(h, u));
    }
  }

  /** The root binds the whole sequence: a second sequence with this root exhibits a collision. */
  lemma RootBindsSequence(h: Hash, xs: seq<Bytes>, ys: seq<Bytes>)
    requires IsHash(h)
    requires MerkleRoot(h, xs) == MerkleRoot(h, ys)
    requires xs != ys
    ensures CollisionBetween(h, HashedBy(h, xs), HashedBy(h, ys))
  {
    if xs != [] { RootIsTreeRoot(h, xs); }
    if ys != [] { RootIsTreeRoot(h, ys); }
    if xs != [] && ys != [] {
      TreeOfInjective(xs, ys);
      TreeRootBinds(h, TreeOf(xs), TreeOf(ys));
    } else if xs == [] {
      assert Collision(h, [], TopInput(h, TreeOf(ys)));
    } else {
      assert Collision(h, TopInput(h, TreeOf(xs)), []);
    }
  }

  lemma TreeOfInjective(xs: seq<Bytes>, ys: seq<Bytes>)
    requires xs != [] && ys != [] && xs != ys
    ensures TreeOf(xs) != TreeOf(ys)
  {
    if |xs| == |ys| {
      var i :| 0 <= i < |xs| && xs[i] != ys[i];
      AtTreeOf(xs, i);
      AtTreeOf(ys, i);
    }
  }

  // ---------------------------------------------------------------------------------------
  // Checking an inclusion proof
  // ---------------------------------------------------------------------------------------

  /** A sibling hash, and whether it sits on the left. */
  datatype PathEntry = PathEntry(sibling: Bytes, onLeft: bool)

  predicate WellFormed(path: seq<PathEntry>) {
    forall i :: 0 <= i < |path| ==> |path[i].sibling| == 32
  }

  /** `path` runs from the leaf upwards. */
  datatype MerkleProof = MerkleProof(index: int, treeSize: int, path: seq<PathEntry>) {
    /** What the constructor insists on. */
    predicate Valid() { treeSize >= 1 && 0 <= index < treeSize && WellFormed(path) }
  }

  /** The root recomputed from a leaf hash and a path. */
  function Climb(h: Hash, start: Bytes, path: seq<PathEntry>): Bytes {
    if path == [] then start
    else
      var top, below := path[|path| - 1], Climb(h, start, path[..|path| - 1]);
      if top.onLeft then NodeHash(h, top.sibling, below) else NodeHash(h, below, top.sibling)
  }

  predicate Accepts(h: Hash, path: seq<PathEntry>, leaf: Bytes, root: Bytes) {
    Climb(h, LeafHash(h, leaf), path) == root
  }

  method VerifyProof(h: Hash, proof: MerkleProof, leaf: Bytes, root: Bytes) returns (ok: bool)
    ensures ok <==> Accepts(h, proof.path, leaf, root)
  {
    var computed := LeafHash(h, leaf);
    for i := 0 to |proof.path|
      invariant computed == Climb(h, LeafHash(h, leaf), proof.path[..i])
    {
      assert proof.path[..i + 1][..i] == proof.path[..i];
      computed := if proof.path[i].onLeft then NodeHash(h, proof.path[i].sibling, computed)
                  else NodeHash(h, computed, proof.path[i].sibling);
    }
    assert proof.path[..|proof.path|] == proof.path;
    ok := computed == root;
  }

  /** Which siblings of a path sit on the left. */
  function Flags(path: seq<PathEntry>): (flags: seq<bool>)
    ensures |flags| == |path|
  {
    if path == [] then [] else Flags(path[..|path| - 1]) + [path[|path| - 1].onLeft]
  }

  /** The leaf position that left/right flags spell in a tree of `n` leaves, if any. */
  function Locate(n: nat, flags: seq<bool>): (r: Option<nat>)
    ensures r.Some? ==> r.value < n
    decreases |flags|
  {
    if n <= 1 || flags == [] then
      if n == 1 && flags == [] then Some(0) else None
    else
      var right, rest := flags[|flags| - 1], flags[..|flags| - 1];
      var k := LargestPowerOfTwoBelow(n);
      if right then
        match Locate(n - k, rest) case Some(i) => Some(k + i) case None => None
      else Locate(k, rest)
  }

  /** The leaf that flags lead to, walking a tree down from its root. */
  ghost function Follow(t: Tree, flags: seq<bool>): Option<Bytes> {
    if t.Leaf? || flags == [] then
      if t.Leaf? && flags == [] then Some(t.data) else None
    else
      Follow(if flags[|flags| - 1] then t.right else t.left, flags[..|flags| - 1])
  }

  lemma {:induction false} FollowIsLocate(t: Tree, flags: seq<bool>)
    requires Balanced(t)
    ensures Follow(t, flags) == match Locate(Size(t), flags) case Some(i) => Some(At(t, i)) case None => None
  {
    if t.Node? && flags != [] {
      FollowIsLocate(if flags[|flags| - 1] then t.right else t.left, flags[..|flags| - 1]);
    }
  }

  lemma FollowLeaves(leaves: seq<Bytes>, flags: seq<bool>, leaf: Bytes)
    requires leaves != []
    ensures Follow(TreeOf(leaves), flags) == Some(leaf) <==>
            Locate(|leaves|, flags).Some? && leaves[Locate(|leaves|, flags).value] == leaf
  {
    TreeOfBalanced(leaves);
    FollowIsLocate(TreeOf(leaves), flags);
    if Locate(|leaves|, flags).Some? { AtTreeOf(leaves, Locate(|leaves|, flags).value); }
  }

  /** The last string hashed while a proof is checked. */
  ghost function LastProofInput(h: Hash, leaf: Bytes, path: seq<PathEntry>): Bytes {
    if path == [] then LeafInput(leaf)
    else
      var top, below := path[|path| - 1], Climb(h, LeafHash(h, leaf), path[..|path| - 1]);
      if top.onLeft then NodeInput(top.sibling, below) else NodeInput(below, top.sibling)
  }

  /** Every string hashed while a proof is checked. */
  ghost function HashedByProof(h: Hash, leaf: Bytes, path: seq<PathEntry>): set<Bytes> {
    {LastProofInput(h, leaf, path)} +
    if path == [] then {} else HashedByProof(h, leaf, path[..|path| - 1])
  }

  lemma ClimbHashes(h: Hash, leaf: Bytes, path: seq<PathEntry>)
    ensures Climb(h, LeafHash(h, leaf), path) == h(LastProofInput(h, leaf, path))
  {
  }

  lemma {:induction false} ClimbSound(h: Hash, t: Tree, leaf: Bytes, path: seq<PathEntry>)
    requires IsHash(h) && WellFormed(path)
    requires Climb(h, LeafHash(h, leaf), path) == TreeRoot(h, t)
    ensures Follow(t, Flags(path)) == Some(leaf) || CollisionBetween(h, HashedByProof(h, leaf, path), TreeInputs(h, t))
    decreases |path|
  {
    var a, b := LastProofInput(h, leaf, path), TopInput(h, t);
    ClimbHashes(h, leaf, path);
    if a != b {
      assert Collision(h, a, b);
    } else if path == [] && t.Leaf? {
      LeafInputInjective(leaf, t.data);
    } else {
      assert a[0] == b[0];
      var top, rest := path[|path| - 1], path[..|path| - 1];
      ClimbHashes(h, leaf, rest);
      var below := Climb(h, LeafHash(h, leaf), rest);
      var sub := if top.onLeft then t.right else t.left;
      if top.onLeft {
        NodeInputInjective(top.sibling, below, TreeRoot(h, t.left), TreeRoot(h, t.right));
      } else {
        NodeInputInjective(below, top.sibling, TreeRoot(h, t.left), TreeRoot(h, t.right));
      }
      ClimbSound(h, sub, leaf, rest);
      if Follow(t, Flags(path)) != Some(leaf) {
        CollisionGrows(h, HashedByProof(h, leaf, rest), TreeInputs(h, sub), HashedByProof(h, leaf, path),
                       TreeInputs(h, t));
      }
    }
  }

  /**
   * Soundness: an accepted leaf is the leaf at the position its path spells, or checking the
   * proof hashed a string that collides with one hashed for the root.
   */
  lemma InclusionSound(h: Hash, leaves: seq<Bytes>, leaf: Bytes, path: seq<PathEntry>)
    requires IsHash(h) && WellFormed(path)
    requires Accepts(h, path, leaf, MerkleRoot(h, leaves))
    ensures CollisionBetween(h, HashedByProof(h, leaf, path), HashedBy(h, leaves)) ||
            (Locate(|leaves|, Flags(path)).Some? && leaves[Locate(|leaves|, Flags(path)).value] == leaf)
  {
    ClimbHashes(h, leaf, path);
    if leaves == [] {
      assert Collision(h, LastProofInput(h, leaf, path), []);
    } else {
      RootIsTreeRoot(h, leaves);
      ClimbSound(h, TreeOf(leaves), leaf, path);
      if Follow(TreeOf(leaves), Flags(path)) == Some(leaf) { FollowLeaves(leaves, Flags(path), leaf); }
    }
  }

  // ---------------------------------------------------------------------------------------
  // Building an inclusion proof
  // ---------------------------------------------------------------------------------------

  function Siblings(path: seq<PathEntry>): (s: seq<Bytes>)
    ensures |s| == |path|
  {
    if path == [] then [] else Siblings(path[..|path| - 1]) + [path[|path| - 1].sibling]
  }

  /** The leaf-upwards path to a position of a tree. */
  ghost function TreePath(h: Hash, t: Tree, i: nat): seq<PathEntry>
    requires i < Size(t)
  {
    match t
    case Leaf(_) => []
    case Node(left, right) =>
      if i < Size(left) then TreePath(h, left, i) + [PathEntry(TreeRoot(h, right), false)]
      else TreePath(h, right, i - Size(left)) + [PathEntry(TreeRoot(h, left), true)]
  }

  function Reversed<T>(s: seq<T>): (r: seq<T>)
    ensures |r| == |s|
  {
    if s == [] then [] else Reversed(s[1..]) + [s[0]]
  }

  method Reverse<T>(s: seq<T>) returns (r: seq<T>)
    ensures r == Reversed(s)
  {
    r := [];
    for i := 0 to |s|
      invariant Reversed(s) == Reversed(s[i..]) + r
    {
      r := [s[i]] + r;
    }
  }

  lemma {:induction false} ReversedAppend<T>(s: seq<T>, x: T)
    ensures Reversed(s + [x]) == [x] + Reversed(s)
  {
    if s == [] {
      assert s + [x] == [x];
    } else {
      ReversedAppend(s[1..], x);
      assert (s + [x])[1..] == s[1..] + [x];
    }
  }

  /** Walk down to the target leaf, recording each sibling's root. */
  method Descend(h: Hash, subtree: seq<Bytes>, target: nat, path: seq<PathEntry>,
                 ghost d: seq<Bytes>) returns (r: seq<PathEntry>)
    requires target < |subtree|
    requires subtree == LeafHashes(h, d)
    ensures r == path + Reversed(TreePath(h, TreeOf(d), target))
    decreases |subtree|
  {
    if |subtree| <= 1 { return path; }
    var split := LargestPowerOfTwoBelow(|subtree|);
    LeafHashesSlice(h, d, split);
    ghost var left, right := TreeOf(d[..split]), TreeOf(d[split..]);
    if target < split {
      var entry := PathEntry(RootOfHashes(h, subtree[split..]), false);
      RootIsTreeRoot(h, d[split..]);
      ReversedAppend(TreePath(h, left, target), entry);
      r := Descend(h, subtree[..split], target, path + [entry], d[..split]);
    } else {
      var entry := PathEntry(RootOfHashes(h, subtree[..split]), true);
      RootIsTreeRoot(h, d[..split]);
      ReversedAppend(TreePath(h, right, target - split), entry);
      r := Descend(h, subtree[split..], target - split, path + [entry], d[split..]);
    }
  }

  /** The leaf-upwards path that the proof of a leaf carries. */
  ghost function InclusionPath(h: Hash, leaves: seq<Bytes>, index: nat): seq<PathEntry>
    requires index < |leaves|
  {
    TreePath(h, TreeOf(leaves), index)
  }

  lemma {:induction false} ReversedTwice<T>(s: seq<T>)
    ensures Reversed(Reversed(s)) == s
  {
    if s != [] {
      ReversedTwice(s[1..]);
      ReversedAppend(Reversed(s[1..]), s[0]);
    }
  }

  datatype ProofError = EmptyTree | IndexOutside

  method BuildInclusionProof(h: Hash, leaves: seq<Bytes>, index: int) returns (r: Result<MerkleProof, ProofError>)
    requires IsHash(h)
    ensures r.Ok? <==> 0 <= index < |leaves|
    ensures leaves == [] ==> r == Err(EmptyTree)
    ensures leaves != [] && r.Err? ==> r == Err(IndexOutside)
    ensures r.Ok? ==> r.value == MerkleProof(index, |leaves|, InclusionPath(h, leaves, index)) && r.value.Valid()
    ensures r.Ok? ==> Proves(h, leaves, index, r.value.path)
  {
    if leaves == [] { return Err(EmptyTree); }
    if !(0 <= index < |leaves|) { return Err(IndexOutside); }
    var path := Descend(h, LeafHashes(h, leaves), index, [], leaves);
    assert path == Reversed(InclusionPath(h, leaves, index));
    path := Reverse(path);
    ReversedTwice(InclusionPath(h, leaves, index));
    InclusionComplete(h, leaves, index);
    return Ok(MerkleProof(index, |leaves|, path));
  }

  lemma AppendEntry(h: Hash, start: Bytes, path: seq<PathEntry>, entry: PathEntry)
    ensures Climb(h, start, path + [entry]) ==
            var below := Climb(h, start, path);
            if entry.onLeft then NodeHash(h, entry.sibling, below) else NodeHash(h, below, entry.sibling)
    ensures Siblings(path + [entry]) == Siblings(path) + [entry.sibling]
    ensures Flags(path + [entry]) == Flags(path) + [entry.onLeft]
  {
    assert (path + [entry])[..|path|] == path;
  }

  /** The entry that a node adds to the path inside one of its halves. */
  lemma TreePathNode(h: Hash, t: Tree, i: nat)
    requires i < Size(t) && t.Node?
    ensures var goRight := i >= Size(t.left);
            var entry := PathEntry(TreeRoot(h, if goRight then t.left else t.right), goRight);
            var sub := if goRight then TreePath(h, t.right, i - Size(t.left)) else TreePath(h, t.left, i);
            && TreePath(h, t, i) == sub + [entry]
            && Siblings(TreePath(h, t, i)) == Siblings(sub) + [entry.sibling]
            && Flags(TreePath(h, t, i)) == Flags(sub) + [goRight]
  {
    var goRight := i >= Size(t.left);
    var entry := PathEntry(TreeRoot(h, if goRight then t.left else t.right), goRight);
    AppendEntry(h, [], if goRight then TreePath(h, t.right, i - Size(t.left)) else TreePath(h, t.left, i), entry);
  }

  lemma {:induction false} TreePathClimbs(h: Hash, t: Tree, i: nat)
    requires i < Size(t)
    ensures Climb(h, LeafHash(h, At(t, i)), TreePath(h, t, i)) == TreeRoot(h, t)
  {
    if t.Node? {
      var start := LeafHash(h, At(t, i));
      if i < Size(t.left) {
        TreePathClimbs(h, t.left, i);
        AppendEntry(h, start, TreePath(h, t.left, i), PathEntry(TreeRoot(h, t.right), false));
      } else {
        TreePathClimbs(h, t.right, i - Size(t.left));
        AppendEntry(h, start, TreePath(h, t.right, i - Size(t.left)), PathEntry(TreeRoot(h, t.left), true));
      }
    }
  }

  lemma {:induction false} TreePathWellFormed(h: Hash, t: Tree, i: nat)
    requires IsHash(h) && i < Size(t)
    ensures WellFormed(TreePath(h, t, i))
  {
    if t.Node? {
      if i < Size(t.left) { TreePathWellFormed(h, t.left, i); } else {
        TreePathWellFormed(h, t.right, i - Size(t.left));
      }
    }
  }

  /** The flags that lead to leaf `m` of `n`. */
  function Turns(n: nat, m: nat): seq<bool>
    requires m < n
    decreases n
  {
    if n == 1 then []
    else
      var k := LargestPowerOfTwoBelow(n);
      if m < k then Turns(k, m) + [false] else Turns(n - k, m - k) + [true]
  }

  lemma {:induction false} LocateTurns(n: nat, m: nat)
    requires m < n
    ensures Locate(n, Turns(n, m)) == Some(m)
    decreases n
  {
    hide LargestPowerOfTwoBelow, Locate, Turns, BitLength, Pow2;
    if n == 1 {
      LocateLeaf();
    } else {
      var k := LargestPowerOfTwoBelow(n);
      TurnsStep(n, m);
      if m < k {
        LocateTurns(k, m);
        LocateStep(n, Turns(k, m), false);
      } else {
        LocateTurns(n - k, m - k);
        LocateStep(n, Turns(n - k, m - k), true);
      }
    }
  }

  lemma LocateLeaf()
    ensures Turns(1, 0) == [] && Locate(1, []) == Some(0)
  {
  }

  lemma TurnsStep(n: nat, m: nat)
    requires m < n && n >= 2
    ensures var k := LargestPowerOfTwoBelow(n);
            Turns(n, m) == if m < k then Turns(k, m) + [false] else Turns(n - k, m - k) + [true]
  {
    hide LargestPowerOfTwoBelow;
  }

  lemma LocateStep(n: nat, rest: seq<bool>, right: bool)
    requires n >= 2
    ensures var k := LargestPowerOfTwoBelow(n);
            Locate(n, rest + [right]) ==
            if !right then Locate(k, rest)
            else if Locate(n - k, rest).Some? then Some(k + Locate(n - k, rest).value)
            else None
  {
    hide LargestPowerOfTwoBelow;
    var flags := rest + [right];
    assert flags[..|flags| - 1] == rest;
  }

  ghost function TreeTurns(t: Tree, i: nat): seq<bool>
    requires i < Size(t)
  {
    match t
    case Leaf(_) => []
    case Node(left, right) =>
      if i < Size(left) then TreeTurns(left, i) + [false] else TreeTurns(right, i - Size(left)) + [true]
  }

  lemma {:induction false} TurnsOfTree(t: Tree, i: nat)
    requires i < Size(t) && Balanced(t)
    ensures TreeTurns(t, i) == Turns(Size(t), i)
  {
    if t.Node? {
      if i < Size(t.left) { TurnsOfTree(t.left, i); } else { TurnsOfTree(t.right, i - Size(t.left)); }
    }
  }

  lemma {:induction false} TreePathFlags(h: Hash, t: Tree, i: nat)
    requires i < Size(t)
    ensures Flags(TreePath(h, t, i)) == TreeTurns(t, i)
  {
    if t.Node? {
      TreePathNode(h, t, i);
      if i < Size(t.left) { TreePathFlags(h, t.left, i); } else { TreePathFlags(h, t.right, i - Size(t.left)); }
    }
  }

  lemma InclusionTurns(h: Hash, leaves: seq<Bytes>, index: nat)
    requires index < |leaves|
    ensures Flags(InclusionPath(h, leaves, index)) == Turns(|leaves|, index)
  {
    TreeOfBalanced(leaves);
    TurnsOfTree(TreeOf(leaves), index);
    TreePathFlags(h, TreeOf(leaves), index);
  }

  lemma SiblingsLeft(h: Hash, leaves: seq<Bytes>, index: nat)
    requires |leaves| >= 2 && index < LargestPowerOfTwoBelow(|leaves|)
    ensures var k := LargestPowerOfTwoBelow(|leaves|);
            && Siblings(InclusionPath(h, leaves, index)) ==
              Siblings(InclusionPath(h, leaves[..k], index)) + [Mth(h, leaves[k..])]
            && RfcPath(h, index, leaves) == RfcPath(h, index, leaves[..k]) + [Mth(h, leaves[k..])]
  {
    hide TreePath, Siblings, Mth, TreeRoot, LargestPowerOfTwoBelow;
    TreePathNode(h, TreeOf(leaves), index);
    MthIsTreeRoot(h, leaves[LargestPowerOfTwoBelow(|leaves|)..]);
  }

  lemma SiblingsRight(h: Hash, leaves: seq<Bytes>, index: nat)
    requires |leaves| >= 2 && LargestPowerOfTwoBelow(|leaves|) <= index < |leaves|
    ensures var k := LargestPowerOfTwoBelow(|leaves|);
            && Siblings(InclusionPath(h, leaves, index)) ==
              Siblings(InclusionPath(h, leaves[k..], index - k)) + [Mth(h, leaves[..k])]
            && RfcPath(h, index, leaves) == RfcPath(h, index - k, leaves[k..]) + [Mth(h, leaves[..k])]
  {
    hide TreePath, Siblings, Mth, TreeRoot, LargestPowerOfTwoBelow;
    TreePathNode(h, TreeOf(leaves), index);
    MthIsTreeRoot(h, leaves[..LargestPowerOfTwoBelow(|leaves|)]);
  }

  lemma {:induction false} InclusionSiblings(h: Hash, leaves: seq<Bytes>, index: nat)
    requires index < |leaves|
    ensures Siblings(InclusionPath(h, leaves, index)) == RfcPath(h, index, leaves)
    decreases |leaves|
  {
    if |leaves| >= 2 {
      hide Siblings, InclusionPath, Mth, RfcPath, LargestPowerOfTwoBelow;
      var k := LargestPowerOfTwoBelow(|leaves|);
      if index < k {
        SiblingsLeft(h, leaves, index);
        InclusionSiblings(h, leaves[..k], index);
      } else {
        SiblingsRight(h, leaves, index);
        InclusionSiblings(h, leaves[k..], index - k);
      }
    }
  }

  /**
   * What an inclusion path promises: it verifies, consists of the siblings RFC 6962 prescribes,
   * and spells the leaf's own position.
   */
  ghost predicate Proves(h: Hash, leaves: seq<Bytes>, index: nat, path: seq<PathEntry>)
    requires index < |leaves|
  {
    && Accepts(h, path, leaves[index], MerkleRoot(h, leaves))
    && Siblings(path) == RfcPath(h, index, leaves)
    && Locate(|leaves|, Flags(path)) == Some(index)
    && WellFormed(path)
  }

  /** Completeness: the path built for any leaf of any sequence proves that leaf. */
  lemma InclusionComplete(h: Hash, leaves: seq<Bytes>, index: nat)
    requires IsHash(h) && index < |leaves|
    ensures Proves(h, leaves, index, InclusionPath(h, leaves, index))
  {
    var t := TreeOf(leaves);
    RootIsTreeRoot(h, leaves);
    AtTreeOf(leaves, index);
    TreePathClimbs(h, t, index);
    InclusionSiblings(h, leaves, index);
    InclusionTurns(h, leaves, index);
    LocateTurns(|leaves|, index);
    TreePathWellFormed(h, t, index);
  }

  // ---------------------------------------------------------------------------------------
  // Depth
  // ---------------------------------------------------------------------------------------

  lemma {:induction false} BitLengthMonotone(a: nat, b: nat)
    requires a <= b
    ensures BitLength(a) <= BitLength(b)
  {
    if a > 0 { BitLengthMonotone(a / 2, b / 2); }
  }

  lemma {:induction false} BitLengthBelowPow2(e: nat)
    ensures BitLength(Pow2(e) - 1) == e
  {
    if e > 0 {
      BitLengthBelowPow2(e - 1);
      assert (Pow2(e) - 1) / 2 == Pow2(e - 1) - 1;
    }
  }

  /** Both halves of a tree are at least one level shallower. */
  lemma DepthStep(n: nat)
    requires n >= 2
    ensures var k := LargestPowerOfTwoBelow(n);
            BitLength(k - 1) < BitLength(n - 1) && BitLength(n - k - 1) < BitLength(n - 1)
  {
    hide BitLength, Pow2;
    var k := LargestPowerOfTwoBelow(n);
    BitLengthBounds(n - 1);
    BitLengthBelowPow2(BitLength(n - 1) - 1);
    BitLengthMonotone(n - k - 1, k - 1);
  }

  lemma LocatedSize(n: nat, flags: seq<bool>)
    requires Locate(n, flags).Some?
    ensures n >= 1 && (flags == [] <==> n == 1)
  {
    hide BitLength, Pow2, LargestPowerOfTwoBelow;
  }

  /** Flags that spell a position in a tree of `n` leaves are at most `bit_length(n - 1)` many. */
  lemma {:induction false} LocatedDepth(n: nat, flags: seq<bool>)
    requires Locate(n, flags).Some?
    ensures |flags| <= BitLength(n - 1)
    decreases |flags|
  {
    hide BitLength, Pow2, LargestPowerOfTwoBelow, Locate;
    LocatedSize(n, flags);
    if flags != [] {
      var k, rest, right := LargestPowerOfTwoBelow(n), flags[..|flags| - 1], flags[|flags| - 1];
      assert flags == rest + [right];
      LocateStep(n, rest, right);
      DepthStep(n);
      LocatedDepth(if right then n - k else k, rest);
    }
  }

  lemma InclusionDepth(h: Hash, leaves: seq<Bytes>, index: nat)
    requires IsHash(h) && index < |leaves|
    ensures |InclusionPath(h, leaves, index)| <= BitLength(|leaves| - 1)
  {
    InclusionTurns(h, leaves, index);
    LocateTurns(|leaves|, index);
    LocatedDepth(|leaves|, Turns(|leaves|, index));
  }

  // ---------------------------------------------------------------------------------------
  // What `verify` does not check
  // ---------------------------------------------------------------------------------------

  /**
   * `verify` promises that the leaf is at `index`, but never looks at `index` or `tree_size`:
   * the path of position `at` is accepted whatever position the proof claims.
   */
  lemma ClaimedIndexIsIgnored(h: Hash, leaves: seq<Bytes>, at: nat, claimed: MerkleProof)
    requires IsHash(h) && at < |leaves| && claimed.Valid()
    requires claimed.path == InclusionPath(h, leaves, at)
    ensures Accepts(h, claimed.path, leaves[at], MerkleRoot(h, leaves))
    ensures claimed.index == at <==> Locate(|leaves|, Flags(claimed.path)) == Some(claimed.index)
  {
    InclusionComplete(h, leaves, at);
  }

  /**
   * The missing check: an accepted proof, whatever size it claims, has its leaf at the claimed index
   * if the flags spell that index in the real tree, and over leaves that do not repeat only then.
   */
  lemma ClaimedIndexExact(h: Hash, leaves: seq<Bytes>, leaf: Bytes, claimed: MerkleProof)
    requires IsHash(h) && claimed.Valid()
    requires Accepts(h, claimed.path, leaf, MerkleRoot(h, leaves))
    requires !CollisionBetween(h, HashedByProof(h, leaf, claimed.path), HashedBy(h, leaves))
    ensures var spelled := Locate(|leaves|, Flags(claimed.path)) == Some(claimed.index);
            var holds := claimed.index < |leaves| && leaves[claimed.index] == leaf;
            && (spelled ==> holds)
            && ((forall i, j :: 0 <= i < j < |leaves| ==> leaves[i] != leaves[j]) ==> (holds <==> spelled))
  {
    InclusionSound(h, leaves, leaf, claimed.path);
  }

  /**
   * The claimed size is no substitute for the real one: over three leaves the path of the last is
   * accepted as position 1 of 2, and its flags do spell 1 in a tree of that size.
   */
  lemma ClaimedSizeMisleads(h: Hash, a: Bytes, b: Bytes, c: Bytes) returns (claimed: MerkleProof)
    requires IsHash(h) && b != c
    ensures claimed.Valid() && (claimed.index, claimed.treeSize) == (1, 2)
    ensures Accepts(h, claimed.path, c, MerkleRoot(h, [a, b, c])) && [a, b, c][claimed.index] != c
    ensures Locate(claimed.treeSize, Flags(claimed.path)) == Some(claimed.index)
  {
    var leaves := [a, b, c];
    InclusionComplete(h, leaves, 2);
    claimed := MerkleProof(1, 2, InclusionPath(h, leaves, 2));
    InclusionTurns(h, leaves, 2);
    assert Flags(claimed.path) == [true];
    assert [true][..0] == [];
  }
}
