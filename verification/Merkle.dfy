/**
 The Merkle tree of the attestation suite: a left-aligned full binary tree kept in an array the way
 a binary heap is, node `i` having the children `2i+1` and `2i+2`.

 A 32-byte hash is a natural number: the source compares hashes as equally long lower-case hex
 strings, and that order is the numeric one.  The keccak hashes are parameters; what is needed of
 them is stated where it is needed.
 */
module Merkle {
  import opened Powers
  import opened Sorting
  import opened Wrappers

  type Hash = nat
  type PairHash = (Hash, Hash) -> Hash

  // ---------- sorted pair hash ----------

  function SortedHashPair(h: PairHash, x: Hash, y: Hash): Hash {
    if x <= y then h(x, y) else h(y, x)
  }

  ghost predicate IsPairHash(h: PairHash, v: Hash) {
    exists x, y :: SortedHashPair(h, x, y) == v
  }

  /** Collision freedom on unordered pairs, the idealisation of keccak-256 used for soundness. */
  ghost predicate InjectiveOnPairs(h: PairHash) {
    forall a, b, c, d :: SortedHashPair(h, a, b) == SortedHashPair(h, c, d) ==> (a == c && b == d) || (a == d && b == c)
  }

  /** `node` hashes the two values, the smaller one first. */
  ghost predicate HashesInOrder(h: PairHash, node: Hash, x: Hash, y: Hash) {
    exists lo, hi :: lo <= hi && {lo, hi} == {x, y} && node == h(lo, hi)
  }

  lemma SmallerFirst(h: PairHash, node: Hash, x: Hash, y: Hash)
    ensures node == SortedHashPair(h, x, y) <==> HashesInOrder(h, node, x, y)
  {
    if node == SortedHashPair(h, x, y) {
      var lo, hi := if x <= y then x else y, if x <= y then y else x;
      assert {lo, hi} == {x, y} && node == h(lo, hi);
    }
    if lo, hi :| lo <= hi && {lo, hi} == {x, y} && node == h(lo, hi) {
      PairInOrder(lo, hi, x, y);
    }
  }

  lemma PairInOrder(lo: Hash, hi: Hash, x: Hash, y: Hash)
    requires {lo, hi} == {x, y} && lo <= hi
    ensures if x <= y then lo == x && hi == y else lo == y && hi == x
  {
    assert lo in {x, y} && hi in {x, y} && x in {lo, hi} && y in {lo, hi};
  }

  // ---------- the array tree ----------

  function Parent(i: nat): nat
    requires i > 0
  {
    (i - 1) / 2
  }

  /** `pos + 2 * (pos % 2) - 1`: the left neighbour of an even position, the right one of an odd one. */
  function Sibling(i: nat): nat
    requires i > 0
  {
    i + 2 * (i % 2) - 1
  }

  function HashCount(tree: seq<Hash>): nat {
    if |tree| == 0 then 0 else (|tree| + 1) / 2
  }

  ghost predicate HashesChildren(h: PairHash, tree: seq<Hash>, i: nat)
    requires 2 * i + 2 < |tree|
  {
    tree[i] == SortedHashPair(h, tree[2 * i + 1], tree[2 * i + 2])
  }

  /** `tree` is the array of a full tree: an odd number of nodes, every inner one hashing its children. */
  ghost predicate IsTree(h: PairHash, tree: seq<Hash>) {
    && (tree == [] || |tree| % 2 == 1)
    && forall i: nat :: 2 * i + 2 < |tree| ==> HashesChildren(h, tree, i)
  }

  function Leaves(tree: seq<Hash>): seq<Hash> {
    if tree == [] then [] else tree[HashCount(tree) - 1..]
  }

  /** The leaves determine the whole array. */
  lemma {:induction false} TreeDeterminedByLeaves(h: PairHash, s: seq<Hash>, t: seq<Hash>)
    requires IsTree(h, s) && IsTree(h, t) && Leaves(s) == Leaves(t)
    ensures s == t
  {
    assert |Leaves(s)| == HashCount(s) && |Leaves(t)| == HashCount(t);
    if s != [] {
      NodesAgree(h, s, t, 0);
    }
  }

  lemma {:induction false} NodesAgree(h: PairHash, s: seq<Hash>, t: seq<Hash>, i: nat)
    requires IsTree(h, s) && IsTree(h, t) && |s| == |t| && i < |s| && Leaves(s) == Leaves(t)
    ensures forall j :: i <= j < |s| ==> s[j] == t[j]
    decreases |s| - i
  {
    var n := HashCount(s);
    if i >= n - 1 {
      forall j | i <= j < |s| ensures s[j] == t[j] {
        assert s[j] == Leaves(s)[j - (n - 1)] == Leaves(t)[j - (n - 1)];
      }
    } else {
      NodesAgree(h, s, t, i + 1);
      assert HashesChildren(h, s, i) && HashesChildren(h, t, i);
    }
  }

  /** Node `i` of the tree over `leaves`, read top down. */
  function Node(h: PairHash, leaves: seq<Hash>, i: nat): Hash
    requires i < 2 * |leaves| - 1
    decreases 2 * |leaves| - i
  {
    if i >= |leaves| - 1 then leaves[i - (|leaves| - 1)]
    else SortedHashPair(h, Node(h, leaves, 2 * i + 1), Node(h, leaves, 2 * i + 2))
  }

  function TreeOver(h: PairHash, leaves: seq<Hash>): seq<Hash> {
    if leaves == [] then [] else seq(2 * |leaves| - 1, i requires 0 <= i < 2 * |leaves| - 1 => Node(h, leaves, i))
  }

  lemma TreeOverIsTree(h: PairHash, leaves: seq<Hash>)
    ensures IsTree(h, TreeOver(h, leaves)) && Leaves(TreeOver(h, leaves)) == leaves
  {
    var tree := TreeOver(h, leaves);
    forall i: nat | 2 * i + 2 < |tree| ensures HashesChildren(h, tree, i) {
      assert tree[i] == Node(h, leaves, i);
    }
  }

  // ---------- canonical leaf list ----------

  predicate HashLeq(x: Hash, y: Hash) {
    x <= y
  }

  ghost predicate StrictlyAscending(s: seq<Hash>) {
    forall i, j :: 0 <= i < j < |s| ==> s[i] < s[j]
  }

  /** A set has one strictly ascending enumeration. */
  lemma {:induction false} StrictEnumerationUnique(s: seq<Hash>, t: seq<Hash>)
    requires StrictlyAscending(s) && StrictlyAscending(t) && Elements(s) == Elements(t)
    ensures s == t
  {
    assert s != [] ==> s[0] in Elements(t);
    assert t != [] ==> t[0] in Elements(s);
    if s == [] {
      return;
    }
    assert s[0] == t[0];
    forall x
      ensures x in Elements(s[1..]) <==> x in Elements(s) && x != s[0]
      ensures x in Elements(t[1..]) <==> x in Elements(t) && x != t[0]
    {
      assert s == [s[0]] + s[1..] && t == [t[0]] + t[1..];
    }
    assert Elements(s[1..]) == Elements(t[1..]);
    StrictEnumerationUnique(s[1..], t[1..]);
    assert s == [s[0]] + s[1..] && t == [t[0]] + t[1..];
  }

  // ---------- proofs ----------

  /** The siblings met on the way from `pos` to the root. */
  function ProofFrom(tree: seq<Hash>, pos: nat): seq<Hash>
    requires |tree| % 2 == 1 && pos < |tree|
    decreases pos
  {
    if pos == 0 then [] else [tree[Sibling(pos)]] + ProofFrom(tree, Parent(pos))
  }

  function Fold(h: PairHash, leaf: Hash, proof: seq<Hash>): Hash
    decreases |proof|
  {
    if proof == [] then leaf else Fold(h, SortedHashPair(h, proof[0], leaf), proof[1..])
  }

  lemma {:induction false} FoldAppend(h: PairHash, leaf: Hash, proof: seq<Hash>, q: Hash)
    ensures Fold(h, leaf, proof + [q]) == SortedHashPair(h, q, Fold(h, leaf, proof))
    decreases |proof|
  {
    if proof != [] {
      assert (proof + [q])[1..] == proof[1..] + [q];
      FoldAppend(h, SortedHashPair(h, proof[0], leaf), proof[1..], q);
    } else {
      assert ([] + [q])[1..] == [];
    }
  }

  /** Completeness: the proof taken from any node, and so from any leaf, leads to the root. */
  lemma {:induction false} ProofVerifies(h: PairHash, tree: seq<Hash>, pos: nat)
    requires IsTree(h, tree) && pos < |tree|
    ensures Fold(h, tree[pos], ProofFrom(tree, pos)) == tree[0]
    decreases pos
  {
    if pos > 0 {
      var p := Parent(pos);
      assert HashesChildren(h, tree, p);
      assert SortedHashPair(h, tree[Sibling(pos)], tree[pos]) == tree[p];
      var proof := ProofFrom(tree, pos);
      assert proof[1..] == ProofFrom(tree, p);
      ProofVerifies(h, tree, p);
    }
  }

  /**
   Soundness: if the pair hash is collision free and no leaf is a pair hash, whatever is not a pair
   hash itself and folds to a node of the tree is one of the leaves.
   */
  lemma {:induction false} FoldSound(h: PairHash, tree: seq<Hash>, v: Hash, proof: seq<Hash>, node: nat)
    requires IsTree(h, tree) && node < |tree|
    requires InjectiveOnPairs(h)
    requires forall x :: x in Leaves(tree) ==> !IsPairHash(h, x)
    requires !IsPairHash(h, v)
    requires Fold(h, v, proof) == tree[node]
    ensures v in Leaves(tree)
    decreases |proof|
  {
    if proof == [] {
      InnerOrLeaf(h, tree, node);
    } else {
      var q, front := proof[|proof| - 1], proof[..|proof| - 1];
      assert proof == front + [q];
      FoldAppend(h, v, front, q);
      var w := Fold(h, v, front);
      InnerOrLeaf(h, tree, node);
      if tree[node] in Leaves(tree) {
        assert IsPairHash(h, tree[node]);
        assert false;
      } else {
        FoldSound(h, tree, v, front, if w == tree[2 * node + 1] then 2 * node + 1 else 2 * node + 2);
      }
    }
  }

  lemma InnerOrLeaf(h: PairHash, tree: seq<Hash>, node: nat)
    requires IsTree(h, tree) && node < |tree|
    ensures tree[node] in Leaves(tree) ||
            (2 * node + 2 < |tree| && HashesChildren(h, tree, node) && IsPairHash(h, tree[node]))
  {
    if 2 * node + 2 < |tree| {
      assert HashesChildren(h, tree, node);
    } else {
      assert Leaves(tree)[node - (HashCount(tree) - 1)] == tree[node];
    }
  }

  // ---------- proof length ----------

  /** The least `k` with `n <= 2^k`. */
  function CeilLog2(n: nat): (k: nat)
    requires n >= 1
  {
    if n == 1 then 0 else CeilLog2((n + 1) / 2) + 1
  }

  lemma {:induction false} CeilLog2Least(n: nat)
    requires n >= 1
    ensures n <= Pow2(CeilLog2(n)) && (CeilLog2(n) > 0 ==> Pow2(CeilLog2(n) - 1) < n)
  {
    if n > 1 { CeilLog2Least((n + 1) / 2); }
  }

  lemma DepthOfLeaf(n: nat, i: nat, depth: nat)
    requires i < n && Pow2(depth) <= n + i < 2 * Pow2(depth)
    ensures CeilLog2(n) - 1 <= depth <= CeilLog2(n)
  {
    var k := CeilLog2(n);
    CeilLog2Least(n);
    if depth > k { Pow2Monotone(k + 1, depth); }
    if depth + 1 < k { Pow2Monotone(depth + 1, k - 1); }
  }

  lemma {:induction false} DepthBounds(tree: seq<Hash>, pos: nat)
    requires |tree| % 2 == 1 && pos < |tree|
    ensures Pow2(|ProofFrom(tree, pos)|) <= pos + 1 < 2 * Pow2(|ProofFrom(tree, pos)|)
    decreases pos
  {
    if pos > 0 { DepthBounds(tree, Parent(pos)); }
  }

  /** With `n` leaves every proof has `CeilLog2(n)` hashes or one fewer, whether or not `n` is a power of two. */
  lemma ProofLength(tree: seq<Hash>, i: nat)
    requires |tree| % 2 == 1 && i < HashCount(tree)
    ensures var len := |ProofFrom(tree, HashCount(tree) - 1 + i)|;
            CeilLog2(HashCount(tree)) - 1 <= len <= CeilLog2(HashCount(tree))
  {
    DepthBounds(tree, HashCount(tree) - 1 + i);
    DepthOfLeaf(HashCount(tree), i, |ProofFrom(tree, HashCount(tree) - 1 + i)|);
  }

  // ---------- the class ----------

  function Distinct(sorted: seq<Hash>): (r: seq<Hash>)
    requires SortedBy(HashLeq, sorted)
    ensures r != [] ==> sorted != [] && r[0] == sorted[0]
    ensures StrictlyAscending(r) && Elements(r) == Elements(sorted)
  {
    if sorted == [] then []
    else
      assert sorted == [sorted[0]] + sorted[1..];
      ElementsCons(sorted[0], sorted[1..]);
      var rest := Distinct(sorted[1..]);
      ElementsCons(sorted[0], rest);
      assert rest != [] ==> rest[0] in Elements(sorted);
      if |sorted| > 1 && sorted[0] == sorted[1] then rest else [sorted[0]] + rest
  }

  lemma HashOrder()
    ensures TotalOrder(HashLeq)
  {}

  /** The tree of a list of values: its distinct values in ascending order are the leaves. */
  function TreeOf(h: PairHash, values: seq<Hash>): seq<Hash> {
    HashOrder();
    TreeOver(h, Distinct(Sort(HashLeq, values)))
  }

  /** Every inner node hashes its two children, the smaller one first. */
  ghost predicate InnerInOrder(h: PairHash, tree: seq<Hash>) {
    forall i: nat :: 2 * i + 2 < |tree| ==> HashesInOrder(h, tree[i], tree[2 * i + 1], tree[2 * i + 2])
  }

  lemma TreeInOrder(h: PairHash, tree: seq<Hash>)
    requires IsTree(h, tree)
    ensures InnerInOrder(h, tree)
  {
    forall i: nat | 2 * i + 2 < |tree| ensures HashesInOrder(h, tree[i], tree[2 * i + 1], tree[2 * i + 2]) {
      assert HashesChildren(h, tree, i);
      SmallerFirst(h, tree[i], tree[2 * i + 1], tree[2 * i + 2]);
    }
  }

  lemma TreeOfMeaning(h: PairHash, values: seq<Hash>)
    ensures IsTree(h, TreeOf(h, values)) && InnerInOrder(h, TreeOf(h, values))
    ensures StrictlyAscending(Leaves(TreeOf(h, values)))
    ensures Elements(Leaves(TreeOf(h, values))) == Elements(values)
    ensures TreeOf(h, values) == [] <==> values == []
  {
    HashOrder();
    TreeOverIsTree(h, Distinct(Sort(HashLeq, values)));
    TreeInOrder(h, TreeOf(h, values));
    NodeCount(TreeOf(h, values));
    if values != [] { assert values[0] in Elements(values); }
  }

  lemma BuiltTree(h: PairHash, values: seq<Hash>, tree: seq<Hash>, distinct: seq<Hash>)
    requires IsTree(h, tree) && Leaves(tree) == distinct
    requires StrictlyAscending(distinct) && Elements(distinct) == Elements(values)
    ensures tree == TreeOf(h, values)
  {
    TreeOfMeaning(h, values);
    StrictEnumerationUnique(distinct, Leaves(TreeOf(h, values)));
    TreeDeterminedByLeaves(h, tree, TreeOf(h, values));
  }

  function HashAll(f: Hash -> Hash, s: seq<Hash>): (r: seq<Hash>)
    ensures |r| == |s|
  {
    seq(|s|, i requires 0 <= i < |s| => f(s[i]))
  }

  lemma SpaceForInner(tree: seq<Hash>, hashes: seq<Hash>)
    requires hashes != [] && |tree| == 2 * |hashes| - 1 && tree[|hashes| - 1..] == hashes
    ensures |tree| % 2 == 1 && Leaves(tree) == hashes
  {}

  /** Keeps the first of each run of equal values. */
  method DropRepetitions(sorted: seq<Hash>) returns (hashes: seq<Hash>)
    requires SortedBy(HashLeq, sorted)
    ensures StrictlyAscending(hashes) && Elements(hashes) == Elements(sorted)
  {
    hashes := [];
    var i := 0;
    while i < |sorted|
      invariant 0 <= i <= |sorted|
      invariant StrictlyAscending(hashes)
      invariant Elements(hashes) == Elements(sorted[..i])
      invariant if i == 0 then hashes == [] else hashes != [] && hashes[|hashes| - 1] == sorted[i - 1]
    {
      assert Elements(sorted[..i + 1]) == Elements(sorted[..i]) + {sorted[i]};
      if i == 0 || sorted[i] != sorted[i - 1] {
        assert forall j :: 0 <= j < |hashes| ==> hashes[j] <= hashes[|hashes| - 1];
        hashes := hashes + [sorted[i]];
      } else {
        assert sorted[i] in Elements(hashes);
      }
      i := i + 1;
    }
    assert sorted[..i] == sorted;
  }

  lemma LeafAt(tree: seq<Hash>, i: int)
    requires tree == [] || |tree| % 2 == 1
    ensures |Leaves(tree)| == HashCount(tree)
    ensures 0 <= i < HashCount(tree) ==>
              var pos := |tree| - HashCount(tree) + i; pos == HashCount(tree) - 1 + i < |tree| && tree[pos] == Leaves(tree)[i]
  {}

  class MerkleTree {
    var tree: seq<Hash>
    const initialHash: bool
    const pairHash: PairHash
    const singleHash: Hash -> Hash

    ghost predicate Valid()
      reads this
    {
      IsTree(pairHash, tree)
    }

    constructor (values: seq<Hash>, initialHash: bool, pairHash: PairHash, singleHash: Hash -> Hash)
      ensures Valid()
      ensures this.initialHash == initialHash && this.pairHash == pairHash && this.singleHash == singleHash
      ensures LeavesOf(Leaves(tree), values, initialHash, singleHash)
      ensures !initialHash ==> tree == TreeOf(pairHash, values)
    {
      this.initialHash := initialHash;
      this.pairHash := pairHash;
      this.singleHash := singleHash;
      this.tree := [];
      new;
      Build(values);
    }

    /** Sorts the values, drops repetitions, hashes the leaves if asked to, and fills in the inner nodes. */
    method Build(values: seq<Hash>)
      modifies this
      ensures Valid() && InnerInOrder(pairHash, tree)
      ensures LeavesOf(Leaves(tree), values, initialHash, singleHash)
      ensures !initialHash ==> tree == TreeOf(pairHash, values)
    {
      var distinct := DropRepetitions(Sort(HashLeq, values));
      var hashes := distinct;
      if initialHash {
        hashes := HashAll(singleHash, hashes);
      }
      tree := seq(if |hashes| > 0 then |hashes| - 1 else 0, _ => 0) + hashes;
      if |hashes| > 0 {
        SpaceForInner(tree, hashes);
        FillInner();
      }
      assert LeavesFrom(hashes, distinct, values, initialHash, singleHash);
      TreeInOrder(pairHash, tree);
      if !initialHash {
        BuiltTree(pairHash, values, tree, distinct);
      }
    }

    /** The loop over the inner nodes, from the last one back to the root. */
    method FillInner()
      requires |tree| % 2 == 1
      modifies this
      ensures Valid()
      ensures Leaves(tree) == old(Leaves(tree))
    {
      ghost var leaves := Leaves(tree);
      var i := (|tree| + 1) / 2 - 2;
      while i >= 0
        invariant -1 <= i <= HashCount(tree) - 2
        invariant |tree| == old(|tree|)
        invariant Leaves(tree) == leaves
        invariant forall j: nat :: i < j && 2 * j + 2 < |tree| ==> HashesChildren(pairHash, tree, j)
      {
        ghost var before := tree;
        tree := tree[i := SortedHashPair(pairHash, tree[2 * i + 1], tree[2 * i + 2])];
        forall j: nat | i <= j && 2 * j + 2 < |tree| ensures HashesChildren(pairHash, tree, j) {
          assert j > i ==> HashesChildren(pairHash, before, j);
        }
        i := i - 1;
      }
    }

    function Root(): (r: Option<Hash>)
      reads this
    {
      if tree == [] then None else Some(tree[0])
    }

    function GetHash(i: int): (r: Option<Hash>)
      requires Valid()
      reads this
      ensures r.Some? <==> 0 <= i < |Leaves(tree)|
      ensures r.Some? ==> r.value == Leaves(tree)[i]
    {
      if HashCount(tree) == 0 || i < 0 || i >= HashCount(tree) then None
      else Some(tree[|tree| - HashCount(tree) + i])
    }

    method GetProof(i: int) returns (r: Option<seq<Hash>>)
      requires Valid()
      ensures r.Some? <==> 0 <= i < |Leaves(tree)|
      ensures r.Some? ==> r.value == ProofFrom(tree, HashCount(tree) - 1 + i)
      ensures r.Some? ==> Some(Fold(pairHash, Leaves(tree)[i], r.value)) == Root()
      ensures r.Some? ==> |r.value| <= CeilLog2(|Leaves(tree)|)
    {
      LeafAt(tree, i);
      if HashCount(tree) == 0 || i < 0 || i >= HashCount(tree) {
        return None;
      }
      var start := |tree| - HashCount(tree) + i;
      var proof := ProofUpFrom(start);
      ProofVerifies(pairHash, tree, start);
      ProofLength(tree, i);
      return Some(proof);
    }

    method ProofUpFrom(start: nat) returns (proof: seq<Hash>)
      requires |tree| % 2 == 1 && start < |tree|
      ensures proof == ProofFrom(tree, start)
    {
      proof := [];
      var pos := start;
      while pos > 0
        invariant 0 <= pos < |tree|
        invariant proof + ProofFrom(tree, pos) == ProofFrom(tree, start)
      {
        proof := proof + [tree[Sibling(pos)]];
        pos := Parent(pos);
      }
    }
  }

  /** What `Build` makes the leaves: the distinct values in ascending order, each hashed if `initialHash`. */
  ghost predicate LeavesOf(leaves: seq<Hash>, values: seq<Hash>, initialHash: bool, singleHash: Hash -> Hash) {
    exists distinct: seq<Hash> :: LeavesFrom(leaves, distinct, values, initialHash, singleHash)
  }

  ghost predicate LeavesFrom(leaves: seq<Hash>, distinct: seq<Hash>, values: seq<Hash>, initialHash: bool, singleHash: Hash -> Hash) {
    && StrictlyAscending(distinct) && Elements(distinct) == Elements(values)
    && |leaves| == |distinct| && forall i :: 0 <= i < |leaves| ==> leaves[i] == if initialHash then singleHash(distinct[i]) else distinct[i]
  }

  /** Canonical tree: order and repetitions of the input do not matter; `n` distinct values give `2n - 1` nodes. */
  lemma CanonicalTree(h: PairHash, sh: Hash -> Hash, initialHash: bool, values1: seq<Hash>, values2: seq<Hash>, tree1: seq<Hash>, tree2: seq<Hash>)
    requires Elements(values1) == Elements(values2)
    requires IsTree(h, tree1) && LeavesOf(Leaves(tree1), values1, initialHash, sh)
    requires IsTree(h, tree2) && LeavesOf(Leaves(tree2), values2, initialHash, sh)
    ensures tree1 == tree2
    ensures values1 != [] ==> |tree1| == 2 * |Elements(values1)| - 1
    ensures values1 == [] ==> tree1 == []
  {
    var d1 :| LeavesFrom(Leaves(tree1), d1, values1, initialHash, sh);
    var d2 :| LeavesFrom(Leaves(tree2), d2, values2, initialHash, sh);
    StrictEnumerationUnique(d1, d2);
    assert Leaves(tree1) == Leaves(tree2);
    TreeDeterminedByLeaves(h, tree1, tree2);
    DistinctCount(d1);
    NodeCount(tree1);
    if values1 != [] {
      assert values1[0] in Elements(values1);
    }
  }

  lemma NodeCount(tree: seq<Hash>)
    requires tree == [] || |tree| % 2 == 1
    ensures tree != [] ==> |tree| == 2 * |Leaves(tree)| - 1
    ensures tree == [] <==> Leaves(tree) == []
  {}

  lemma {:induction false} DistinctCount(s: seq<Hash>)
    requires StrictlyAscending(s)
    ensures |Elements(s)| == |s|
  {
    if s != [] {
      DistinctCount(s[1..]);
      assert s == [s[0]] + s[1..];
      assert Elements(s) == {s[0]} + Elements(s[1..]);
      assert s[0] !in s[1..];
    } else {
      assert Elements(s) == {};
    }
  }

  /** The hashes from the leaf up to the root, each made of the one before and the next entry of the proof. */
  ghost predicate IsPath(h: PairHash, path: seq<Hash>, leaf: Hash, proof: seq<Hash>, root: Hash) {
    && |path| == |proof| + 1 && path[0] == leaf && path[|proof|] == root
    && forall j :: 0 <= j < |proof| ==> HashesInOrder(h, path[j + 1], proof[j], path[j])
  }

  lemma {:induction false} FoldHasPath(h: PairHash, leaf: Hash, proof: seq<Hash>) returns (path: seq<Hash>)
    ensures IsPath(h, path, leaf, proof, Fold(h, leaf, proof))
    decreases |proof|
  {
    if proof == [] {
      path := [leaf];
    } else {
      var next := SortedHashPair(h, proof[0], leaf);
      SmallerFirst(h, next, proof[0], leaf);
      var rest := FoldHasPath(h, next, proof[1..]);
      path := [leaf] + rest;
      forall j | 0 <= j < |proof| ensures HashesInOrder(h, path[j + 1], proof[j], path[j]) {
        if j > 0 { assert HashesInOrder(h, rest[j], proof[1..][j - 1], rest[j - 1]); }
      }
    }
  }

  lemma {:induction false} PathIsFold(h: PairHash, path: seq<Hash>, leaf: Hash, proof: seq<Hash>, root: Hash)
    requires IsPath(h, path, leaf, proof, root)
    ensures Fold(h, leaf, proof) == root
    decreases |proof|
  {
    if proof != [] {
      var rest, later := path[1..], proof[1..];
      assert HashesInOrder(h, path[0 + 1], proof[0], path[0]);
      SmallerFirst(h, path[1], proof[0], leaf);
      forall j | 0 <= j < |later| ensures HashesInOrder(h, rest[j + 1], later[j], rest[j]) {
        assert HashesInOrder(h, path[j + 1 + 1], proof[j + 1], path[j + 1]);
      }
      PathIsFold(h, rest, path[1], later, root);
    }
  }

  lemma FoldIffPath(h: PairHash, leaf: Hash, proof: seq<Hash>, root: Hash)
    ensures Fold(h, leaf, proof) == root <==> exists path: seq<Hash> :: IsPath(h, path, leaf, proof, root)
  {
    if Fold(h, leaf, proof) == root {
      var path := FoldHasPath(h, leaf, proof);
    }
    if path: seq<Hash> :| IsPath(h, path, leaf, proof, root) {
      PathIsFold(h, path, leaf, proof, root);
    }
  }

  /** A proof of one entry is accepted exactly if the root hashes it with the leaf, the smaller one first. */
  lemma OneEntryProof(h: PairHash, leaf: Hash, entry: Hash, root: Hash)
    ensures Fold(h, leaf, [entry]) == root <==> root == if entry <= leaf then h(entry, leaf) else h(leaf, entry)
  {
    SmallerFirst(h, root, entry, leaf);
    assert [entry][1..] == [];
    assert Fold(h, leaf, [entry]) == Fold(h, SortedHashPair(h, entry, leaf), []) == SortedHashPair(h, entry, leaf);
    if lo, hi :| lo <= hi && {lo, hi} == {entry, leaf} && root == h(lo, hi) {
      PairInOrder(lo, hi, entry, leaf);
    }
  }

  /** Folds the proof from the leaf up and compares with the root; an absent argument is refused. */
  method VerifyWithMerkleProof(h: PairHash, leaf: Option<Hash>, proof: Option<seq<Hash>>, root: Option<Hash>) returns (ok: bool)
    ensures ok <==> leaf.Some? && proof.Some? && root.Some? && Fold(h, leaf.value, proof.value) == root.value
    ensures ok <==> leaf.Some? && proof.Some? && root.Some? && exists path: seq<Hash> :: IsPath(h, path, leaf.value, proof.value, root.value)
    ensures leaf.Some? && root.Some? && proof.Some? && |proof.value| == 1 ==>
              var p, v := proof.value[0], leaf.value; (ok <==> root.value == if p <= v then h(p, v) else h(v, p))
  {
    if leaf.None? || proof.None? || root.None? {
      return false;
    }
    var hash := leaf.value;
    var i := 0;
    while i < |proof.value|
      invariant 0 <= i <= |proof.value|
      invariant Fold(h, hash, proof.value[i..]) == Fold(h, leaf.value, proof.value)
    {
      assert proof.value[i..][1..] == proof.value[i + 1..];
      hash := SortedHashPair(h, proof.value[i], hash);
      i := i + 1;
    }
    FoldIffPath(h, leaf.value, proof.value, root.value);
    if |proof.value| == 1 {
      OneEntryProof(h, leaf.value, proof.value[0], root.value);
      assert proof.value == [proof.value[0]];
    }
    return hash == root.value;
  }

  /**
   Proofs are exact.  Given an ideal pair hash that meets no leaf, a value that is not a pair hash
   verifies under some proof exactly when it is a leaf of the tree.
   */
  lemma ProofsAreExact(h: PairHash, tree: seq<Hash>, v: Hash)
    requires IsTree(h, tree) && tree != []
    requires InjectiveOnPairs(h)
    requires forall x :: x in Leaves(tree) ==> !IsPairHash(h, x)
    requires !IsPairHash(h, v)
    ensures (exists proof: seq<Hash> :: Fold(h, v, proof) == tree[0]) <==> v in Leaves(tree)
  {
    if v in Leaves(tree) {
      var i :| 0 <= i < |Leaves(tree)| && Leaves(tree)[i] == v;
      var pos := HashCount(tree) - 1 + i;
      ProofVerifies(h, tree, pos);
      assert Fold(h, v, ProofFrom(tree, pos)) == tree[0];
    }
    if proof: seq<Hash> :| Fold(h, v, proof) == tree[0] {
      FoldSound(h, tree, v, proof, 0);
    }
  }
}
