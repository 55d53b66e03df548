/** Building a Merkle tree, extracting a proof and checking it, as the loops of src/crypto/merkle.rs do,
    and what the three promise together. */
module Merkle {
  import opened Hash
  import opened MerkleSpec
  import opened Sequences

  /** `links` holds exactly the nodes of `level`, none of them taken yet. */
  ghost predicate Holds(links: seq<Link>, level: seq<Node>) {
    |links| == |level| && forall k :: 0 <= k < |level| ==> links[k] == Box(level[k])
  }

  /** Makes the number of nodes even by repeating the last one. */
  method DuplicateLastNode(nodes: seq<Link>, ghost level: seq<Node>) returns (even: seq<Link>)
    requires level != [] && Holds(nodes, level)
    ensures Holds(even, level + [level[|level| - 1]])
  {
    even := nodes + [nodes[|nodes| - 1]];
  }

  /** Builds the next level from an even number of nodes, taking each node out of `level` as it goes. */
  method JoinPairs(hc: (H256, H256) -> H256, nodes: seq<Link>, ghost level: seq<Node>) returns (next: seq<Link>)
    requires |nodes| == 2 * Pairs(|level|) && level != []
    requires forall k :: 0 <= k < |nodes| ==> nodes[k] == Box(Clamped(level, k))
    ensures Holds(next, Up(hc, level))
  {
    var currLevel := nodes;
    next := [];
    for i := 0 to |nodes| / 2
      invariant |currLevel| == |nodes| && |next| == i
      invariant forall k :: 2 * i <= k < |nodes| ==> currLevel[k] == nodes[k]
      invariant forall k :: 0 <= k < i ==> next[k] == Box(Up(hc, level)[k])
    {
      var left := currLevel[2 * i].node;
      currLevel := currLevel[2 * i := Nil];
      var right := currLevel[2 * i + 1].node;
      currLevel := currLevel[2 * i + 1 := Nil];
      UpIndex(hc, level, i);
      next := next + [Box(Join(hc, left, right))];
    }
  }

  method LeafLevel<T>(hash: T -> H256, data: seq<T>) returns (links: seq<Link>)
    ensures Holds(links, Leaves(hash, data))
  {
    links := [];
    for i := 0 to |data|
      invariant |links| == i
      invariant forall k :: 0 <= k < i ==> links[k] == Box(Leaf(hash(data[k])))
    {
      links := links + [Box(Leaf(hash(data[i])))];
    }
  }

  /** Replaces `nodes`, which hold a level of more than one node, by the level above. */
  method NextLevel(hc: (H256, H256) -> H256, nodes: seq<Link>, ghost level: seq<Node>) returns (next: seq<Link>)
    requires |level| > 1 && Holds(nodes, level)
    ensures Holds(next, Up(hc, level))
  {
    var currLevel := nodes;
    if |currLevel| % 2 == 1 {
      currLevel := DuplicateLastNode(currLevel, level);
    }
    assert |currLevel| % 2 == 0;
    next := JoinPairs(hc, currLevel, level);
  }

  method New<T>(hc: (H256, H256) -> H256, hash: T -> H256, data: seq<T>) returns (tree: MerkleTree)
    requires data != []
    ensures tree == TreeOf(hc, hash, data)
  {
    ghost var leaves := Leaves(hash, data);
    var currLevel := LeafLevel(hash, data);
    var levelCount := 1;
    ghost var level := leaves;
    while |currLevel| > 1
      invariant level != [] && Holds(currLevel, level)
      invariant Build(hc, level) == Build(hc, leaves)
      invariant Depth(|level|) + levelCount == Depth(|leaves|) + 1
      decreases |currLevel|
    {
      BuildStep(hc, level);
      currLevel := NextLevel(hc, currLevel, level);
      level := Up(hc, level);
      levelCount := levelCount + 1;
    }
    tree := MerkleTree(currLevel[0].node, levelCount);
  }

  function Bit(i: nat, k: nat): (b: nat)
    ensures b < 2
  {
    Shifted(i, k) % 2
  }

  /** The `count` low bits of `index`, lowest first. */
  method BinaryIndex(index: nat, count: nat) returns (bits: seq<nat>)
    ensures |bits| == count
    ensures forall k :: 0 <= k < count ==> bits[k] == Bit(index, k)
  {
    bits := [];
    var rest := index;
    for k := 0 to count
      invariant rest == Shifted(index, k) && |bits| == k
      invariant forall j :: 0 <= j < k ==> bits[j] == Bit(index, j)
    {
      assert Shifted(index, k + 1) == rest / 2;
      bits := bits + [rest % 2];
      rest := rest / 2;
    }
  }

  /** The walk from the root along the reversed bits of `index`; no child it needs is missing. */
  method Proof(hc: (H256, H256) -> H256, tree: MerkleTree, index: nat) returns (proof: seq<H256>)
    requires tree.Valid(hc)
    ensures proof == Siblings(tree.root, tree.levelCount - 1, index)
  {
    var depth := tree.levelCount - 1;
    var binaryIndex := BinaryIndex(index, depth);
    var node := tree.root;
    var proofRev: seq<H256> := [];
    for t := 0 to depth
      invariant node == Descend(tree.root, t, Shifted(index, depth - t))
      invariant Perfect(hc, node, depth - t)
      invariant Reversed(proofRev) == Siblings(tree.root, t, Shifted(index, depth - t))
    {
      var bit := binaryIndex[depth - 1 - t];
      assert Shifted(index, depth - t) == Shifted(index, depth - 1 - t) / 2;
      ghost var before := proofRev;
      if bit == 0 {
        proofRev := proofRev + [node.right.node.hash];
        node := node.left.node;
      } else {
        proofRev := proofRev + [node.left.node.hash];
        node := node.right.node;
      }
      assert proofRev[..|proofRev| - 1] == before;
    }
    proof := Reversed(proofRev);
  }

  /** `leafSize` is taken and not used, as in the source. */
  method Verify(hc: (H256, H256) -> H256, root: H256, datum: H256, proof: seq<H256>, index: nat, leafSize: nat)
    returns (ok: bool)
    ensures ok <==> root == Fold(hc, datum, proof, index)
  {
    var binaryIndex := BinaryIndex(index, |proof|);
    var currHash := datum;
    for i := 0 to |proof|
      invariant Fold(hc, currHash, proof[i..], Shifted(index, i)) == Fold(hc, datum, proof, index)
    {
      assert proof[i..][1..] == proof[i + 1..];
      currHash := if binaryIndex[i] == 0 then hc(currHash, proof[i]) else hc(proof[i], currHash);
    }
    ok := root == currHash;
  }

  // ----- What building, proving and verifying promise together

  function TreeOf<T>(hc: (H256, H256) -> H256, hash: T -> H256, data: seq<T>): MerkleTree
    requires data != []
  {
    MerkleTree(Build(hc, Leaves(hash, data)), Depth(|data|) + 1)
  }

  /** The built tree is perfect and just deep enough for its data. */
  lemma TreeDepth<T>(hc: (H256, H256) -> H256, hash: T -> H256, data: seq<T>)
    requires data != []
    ensures var t := TreeOf(hc, hash, data);
      && t.Valid(hc)
      && |data| <= Pow2(t.levelCount - 1)
      && (|data| > 1 ==> t.levelCount >= 2 && Pow2(t.levelCount - 2) < |data|)
  {
    var leaves := Leaves(hash, data);
    BuildPerfect(hc, leaves, 0, Build(hc, leaves), Depth(|data|));
    DepthBounds(|data|);
  }

  /** Its padded leaf row holds at position `i` the datum that `Source` names: the i-th one when there is one. */
  lemma LeafRow<T>(hc: (H256, H256) -> H256, hash: T -> H256, data: seq<T>, i: nat)
    requires data != []
    ensures var t := TreeOf(hc, hash, data);
      && Descend(t.root, t.levelCount - 1, i) == Leaf(hash(data[Source(|data|, i)]))
      && (i < |data| ==> Descend(t.root, t.levelCount - 1, i) == Leaf(hash(data[i])))
  {
    var leaves := Leaves(hash, data);
    BuildDescend(hc, leaves, Build(hc, leaves), Depth(|data|), i);
    if i < |data| {
      SourceOfDatum(|data|, i);
    }
  }

  /** Both together. */
  lemma TreeShape<T>(hc: (H256, H256) -> H256, hash: T -> H256, data: seq<T>, i: nat)
    requires data != []
    ensures var t := TreeOf(hc, hash, data);
      && t.Valid(hc)
      && |data| <= Pow2(t.levelCount - 1)
      && (|data| > 1 ==> t.levelCount >= 2 && Pow2(t.levelCount - 2) < |data|)
      && Descend(t.root, t.levelCount - 1, i) == Leaf(hash(data[Source(|data|, i)]))
      && (i < |data| ==> Descend(t.root, t.levelCount - 1, i) == Leaf(hash(data[i])))
  {
    TreeDepth(hc, hash, data);
    LeafRow(hc, hash, data, i);
  }

  /** Every datum has an accepted proof. */
  lemma Completeness<T>(hc: (H256, H256) -> H256, hash: T -> H256, data: seq<T>, i: nat)
    requires i < |data|
    ensures var t := TreeOf(hc, hash, data);
      Fold(hc, hash(data[i]), Siblings(t.root, t.levelCount - 1, i), i) == t.Root()
  {
    var root, depth := TreeOf(hc, hash, data).root, Depth(|data|);
    TreeShape(hc, hash, data, i);
    FoldSiblings(hc, root, depth, depth, i);
    assert Descend(root, depth, i).hash == hash(data[i]);
  }

  /** An accepted proof of full length shows the datum at that index and is the extracted proof, or exhibits
      a collision. */
  lemma Soundness<T>(hc: (H256, H256) -> H256, hash: T -> H256, data: seq<T>, i: nat, datum: H256, proof: seq<H256>)
    requires i < |data|
    requires |proof| == TreeOf(hc, hash, data).levelCount - 1
    requires Fold(hc, datum, proof, i) == TreeOf(hc, hash, data).Root()
    ensures var t := TreeOf(hc, hash, data);
      var r := FindCollision(hc, t.root, datum, proof, i);
      || (datum == hash(data[i]) && proof == Siblings(t.root, t.levelCount - 1, i))
      || (r.Some? && IsCollision(hc, r.value))
  {
    var t := TreeOf(hc, hash, data);
    TreeShape(hc, hash, data, i);
    FoldSound(hc, t.root, t.levelCount - 1, datum, proof, i);
  }

  /** `Verify` looks at no length: a proof that is too short is accepted for the hash of the inner node
      at which it stops, and (up to collisions) for nothing else. */
  lemma ShortProofs(hc: (H256, H256) -> H256, t: MerkleTree, d: nat, i: nat, datum: H256, proof: seq<H256>)
    requires t.Valid(hc) && |proof| == d < t.levelCount - 1
    ensures Fold(hc, Descend(t.root, d, i).hash, Siblings(t.root, d, i), i) == t.Root()
    ensures Fold(hc, datum, proof, i) == t.Root() ==>
      datum == Descend(t.root, d, i).hash || FindCollision(hc, t.root, datum, proof, i).Some?
  {
    FoldSiblings(hc, t.root, t.levelCount - 1, d, i);
    if Fold(hc, datum, proof, i) == t.Root() {
      FoldSound(hc, t.root, t.levelCount - 1, datum, proof, i);
    }
  }

  /** A proof that is one too long is accepted for the two halves of anything that hashes to a datum. */
  lemma LongProofs<T>(hc: (H256, H256) -> H256, hash: T -> H256, data: seq<T>, i: nat, x: H256, y: H256)
    requires i < |data| && hc(x, y) == hash(data[i])
    ensures var t := TreeOf(hc, hash, data);
      && Fold(hc, x, [y] + Siblings(t.root, t.levelCount - 1, i), 2 * i) == t.Root()
      && Fold(hc, y, [x] + Siblings(t.root, t.levelCount - 1, i), 2 * i + 1) == t.Root()
  {
    var t := TreeOf(hc, hash, data);
    Completeness(hc, hash, data, i);
    FoldOneMore(hc, x, y, Siblings(t.root, t.levelCount - 1, i), i);
  }

  /** How much longer a proof is than the tree is deep. */
  function Excess(t: MerkleTree, proof: seq<H256>): (e: nat)
    requires t.levelCount >= 1
    ensures e <= |proof| && |proof| - e <= t.levelCount - 1
  {
    if |proof| > t.levelCount - 1 then |proof| - (t.levelCount - 1) else 0
  }

  /** What is left of a proof, with the datum folded up to it, and the walk that it is checked against. */
  datatype Remainder = Remainder(folded: H256, rest: seq<H256>, index: nat)

  function CutOff(hc: (H256, H256) -> H256, t: MerkleTree, datum: H256, proof: seq<H256>, i: nat): (r: Remainder)
    requires t.levelCount >= 1
    ensures |r.rest| == if |proof| < t.levelCount - 1 then |proof| else t.levelCount - 1
  {
    var e := Excess(t, proof);
    Remainder(Fold(hc, datum, proof[..e], i), proof[e..], Shifted(i, e))
  }

  /** The remainder lists the siblings on its walk, and has the hash of the node reached. */
  predicate OnWalk(root: Node, r: Remainder) {
    r.folded == Descend(root, |r.rest|, r.index).hash && r.rest == Siblings(root, |r.rest|, r.index)
  }

  /** The search along its walk returns a collision. */
  predicate Collides(hc: (H256, H256) -> H256, root: Node, r: Remainder) {
    var found := FindCollision(hc, root, r.folded, r.rest, r.index);
    found.Some? && IsCollision(hc, found.value)
  }

  lemma CutOffFolds(hc: (H256, H256) -> H256, t: MerkleTree, datum: H256, proof: seq<H256>, i: nat)
    requires t.levelCount >= 1
    ensures var r := CutOff(hc, t, datum, proof, i); Fold(hc, datum, proof, i) == Fold(hc, r.folded, r.rest, r.index)
  {
    FoldCut(hc, datum, proof, i, Excess(t, proof));
  }

  lemma WalkAccepted(hc: (H256, H256) -> H256, t: MerkleTree, r: Remainder)
    requires t.Valid(hc) && |r.rest| <= t.levelCount - 1
    ensures OnWalk(t.root, r) ==> Fold(hc, r.folded, r.rest, r.index) == t.Root()
    ensures Fold(hc, r.folded, r.rest, r.index) == t.Root() ==> OnWalk(t.root, r) || Collides(hc, t.root, r)
  {
    FoldSiblings(hc, t.root, t.levelCount - 1, |r.rest|, r.index);
    if Fold(hc, r.folded, r.rest, r.index) == t.Root() {
      FoldSound(hc, t.root, t.levelCount - 1, r.folded, r.rest, r.index);
    }
  }

  lemma AcceptedByTree(hc: (H256, H256) -> H256, t: MerkleTree, datum: H256, proof: seq<H256>, i: nat)
    requires t.Valid(hc)
    ensures var r := CutOff(hc, t, datum, proof, i);
      && (OnWalk(t.root, r) ==> Fold(hc, datum, proof, i) == t.Root())
      && (Fold(hc, datum, proof, i) == t.Root() ==> OnWalk(t.root, r) || Collides(hc, t.root, r))
  {
    CutOffFolds(hc, t, datum, proof, i);
    WalkAccepted(hc, t, CutOff(hc, t, datum, proof, i));
  }

  lemma LeafReached<T>(hc: (H256, H256) -> H256, hash: T -> H256, data: seq<T>, t: MerkleTree, r: Remainder)
    requires data != [] && t == TreeOf(hc, hash, data)
    ensures |r.rest| == t.levelCount - 1 ==>
      Descend(t.root, |r.rest|, r.index).hash == hash(data[Source(|data|, r.index)])
  {
    LeafRow(hc, hash, data, r.index);
  }

  /** What `Verify` accepts, for proofs of every length and every index. Cut off what the proof has in excess of
      the tree's depth, and fold the datum with it: the rest must be the siblings on the walk, and the result the
      hash of the node reached, up to collisions. That node is a leaf, namely of the datum that padding put
      there, unless the proof is too short. */
  lemma AcceptedExactly<T>(hc: (H256, H256) -> H256, hash: T -> H256, data: seq<T>, t: MerkleTree,
          datum: H256, proof: seq<H256>, i: nat)
    requires data != [] && t == TreeOf(hc, hash, data)
    ensures t.levelCount >= 1
    ensures var r := CutOff(hc, t, datum, proof, i);
      && (OnWalk(t.root, r) ==> Fold(hc, datum, proof, i) == t.Root())
      && (Fold(hc, datum, proof, i) == t.Root() ==> OnWalk(t.root, r) || Collides(hc, t.root, r))
      && (|proof| >= t.levelCount - 1 ==>
        Descend(t.root, |r.rest|, r.index).hash == hash(data[Source(|data|, r.index)]))
  {
    TreeDepth(hc, hash, data);
    AcceptedByTree(hc, t, datum, proof, i);
    LeafReached(hc, hash, data, t, CutOff(hc, t, datum, proof, i));
  }

  /** Two data sequences of one length with the same root hash alike item by item, or a collision is found. */
  lemma RootBindsData<T>(hc: (H256, H256) -> H256, hash: T -> H256, a: seq<T>, b: seq<T>, i: nat)
    requires i < |a| == |b|
    requires TreeOf(hc, hash, a).Root() == TreeOf(hc, hash, b).Root()
    ensures var t, u := TreeOf(hc, hash, a), TreeOf(hc, hash, b);
      var r := FindCollision(hc, t.root, hash(b[i]), Siblings(u.root, u.levelCount - 1, i), i);
      hash(a[i]) == hash(b[i]) || (r.Some? && IsCollision(hc, r.value))
  {
    var u := TreeOf(hc, hash, b);
    Completeness(hc, hash, b, i);
    Soundness(hc, hash, a, i, hash(b[i]), Siblings(u.root, u.levelCount - 1, i));
  }

  /** The hash at position `i` of the padded leaf row. */
  function Padded<T>(hash: T -> H256, data: seq<T>, i: nat): H256
    requires data != []
  {
    hash(data[Source(|data|, i)])
  }

  lemma RowHash<T>(hc: (H256, H256) -> H256, hash: T -> H256, data: seq<T>, i: nat)
    requires data != []
    ensures Descend(TreeOf(hc, hash, data).root, Depth(|data|), i).hash == Padded(hash, data, i)
  {
    LeafRow(hc, hash, data, i);
  }

  lemma RootsMeet(hc: (H256, H256) -> H256, t: MerkleTree, u: MerkleTree, i: nat)
    requires t.Valid(hc) && u.Valid(hc) && t.levelCount <= u.levelCount && t.Root() == u.Root()
    ensures var d := t.levelCount - 1;
      var other := Descend(u.root, d, i).hash;
      Descend(t.root, d, i).hash == other || FindCollision(hc, t.root, other, Siblings(u.root, d, i), i).Some?
  {
    var d := t.levelCount - 1;
    FoldSiblings(hc, u.root, u.levelCount - 1, d, i);
    FoldSound(hc, t.root, d, Descend(u.root, d, i).hash, Siblings(u.root, d, i), i);
  }

  /** Two data sequences with the same root, of whatever lengths: at every position of the padded row of the
      shallower tree, its leaf hash is the hash of the node at that place in the other tree, or a collision is
      found. In trees of one depth that node is the leaf at that position, so the padded rows are the same. */
  lemma RootBindsRows<T>(hc: (H256, H256) -> H256, hash: T -> H256, a: seq<T>, b: seq<T>, i: nat)
    requires a != [] && b != [] && Depth(|a|) <= Depth(|b|)
    requires TreeOf(hc, hash, a).Root() == TreeOf(hc, hash, b).Root()
    ensures var t, u, d := TreeOf(hc, hash, a), TreeOf(hc, hash, b), Depth(|a|);
      var other := Descend(u.root, d, i).hash;
      var r := FindCollision(hc, t.root, other, Siblings(u.root, d, i), i);
      && (Padded(hash, a, i) == other || (r.Some? && IsCollision(hc, r.value)))
      && (Depth(|b|) == d ==> other == Padded(hash, b, i))
  {
    var t, u, d := TreeOf(hc, hash, a), TreeOf(hc, hash, b), Depth(|a|);
    TreeDepth(hc, hash, a);
    TreeDepth(hc, hash, b);
    RowHash(hc, hash, a, i);
    RowHash(hc, hash, b, i);
    RootsMeet(hc, t, u, i);
  }

  ghost predicate SamePadding<T>(hash: T -> H256, a: seq<T>, b: seq<T>)
    requires a != [] && b != []
  {
    forall i: nat :: Padded(hash, a, i) == Padded(hash, b, i)
  }

  /** The hash of the node at index `j` of the level `e` above the row: the usual recursion. */
  function RowRoot(hc: (H256, H256) -> H256, row: nat -> H256, e: nat, j: nat): H256 {
    if e == 0 then row(j) else hc(RowRoot(hc, row, e - 1, 2 * j), RowRoot(hc, row, e - 1, 2 * j + 1))
  }

  lemma {:induction false} NodeHashesRow(hc: (H256, H256) -> H256, root: Node, depth: nat, row: nat -> H256,
          e: nat, j: nat)
    requires Perfect(hc, root, depth) && e <= depth
    requires forall i: nat :: row(i) == Descend(root, depth, i).hash
    ensures Descend(root, depth - e, j).hash == RowRoot(hc, row, e, j)
    decreases e
  {
    if e == 0 {
    } else {
      DescendPerfect(hc, root, depth, depth - e, j);
      NodeHashesRow(hc, root, depth, row, e - 1, 2 * j);
      NodeHashesRow(hc, root, depth, row, e - 1, 2 * j + 1);
    }
  }

  function Row<T>(hash: T -> H256, data: seq<T>): nat -> H256
    requires data != []
  {
    (i: nat) => Padded(hash, data, i)
  }

  /** The root hashes the padded leaf row, left before right, and nothing else. */
  lemma RootOfRow<T>(hc: (H256, H256) -> H256, hash: T -> H256, data: seq<T>)
    requires data != []
    ensures TreeOf(hc, hash, data).Root() == RowRoot(hc, Row(hash, data), Depth(|data|), 0)
  {
    var root, depth := TreeOf(hc, hash, data).root, Depth(|data|);
    TreeDepth(hc, hash, data);
    forall i: nat ensures Row(hash, data)(i) == Descend(root, depth, i).hash {
      RowHash(hc, hash, data, i);
    }
    NodeHashesRow(hc, root, depth, Row(hash, data), depth, 0);
  }

  /** Of one datum it is the hash, of two it hashes them in order, and the third of three is its own neighbour. */
  lemma SmallRoots<T>(hc: (H256, H256) -> H256, hash: T -> H256, x: T, y: T, z: T)
    ensures TreeOf(hc, hash, [x]).Root() == hash(x)
    ensures TreeOf(hc, hash, [x, y]).Root() == hc(hash(x), hash(y))
    ensures TreeOf(hc, hash, [x, y, z]).Root() == hc(hc(hash(x), hash(y)), hc(hash(z), hash(z)))
  {
    BuildStep(hc, Leaves(hash, [x, y]));
    BuildStep(hc, Leaves(hash, [x, y, z]));
    assert |Leaves(hash, [x, y, z])[2..]| == 1;
    BuildStep(hc, Up(hc, Leaves(hash, [x, y, z])));
  }

  /** Conversely, trees of one depth with the same padded row are the same. */
  lemma PaddingGivesRoot<T>(hc: (H256, H256) -> H256, hash: T -> H256, a: seq<T>, b: seq<T>)
    requires a != [] && b != [] && Depth(|a|) == Depth(|b|) && SamePadding(hash, a, b)
    ensures TreeOf(hc, hash, a) == TreeOf(hc, hash, b)
  {
    var t, u, d := TreeOf(hc, hash, a), TreeOf(hc, hash, b), Depth(|a|);
    TreeDepth(hc, hash, a);
    TreeDepth(hc, hash, b);
    forall i: nat ensures Descend(t.root, d, i) == Descend(u.root, d, i) {
      LeafRow(hc, hash, a, i);
      LeafRow(hc, hash, b, i);
      assert Padded(hash, a, i) == Padded(hash, b, i);
    }
    PerfectEqual(hc, t.root, u.root, d, d);
  }

  /** So the root does not bind the number of data: an odd number of them, and the same with the last one
      repeated, have one root. */
  lemma RepeatedLastSameRoot<T>(hc: (H256, H256) -> H256, hash: T -> H256, data: seq<T>)
    requires |data| > 1 && |data| % 2 == 1
    ensures TreeOf(hc, hash, data + [data[|data| - 1]]).Root() == TreeOf(hc, hash, data).Root()
  {
    var last := data[|data| - 1];
    var leaves := Leaves(hash, data);
    assert Leaves(hash, data + [last]) == leaves + [leaves[|leaves| - 1]];
    UpOdd(hc, leaves);
    BuildStep(hc, leaves);
    BuildStep(hc, leaves + [leaves[|leaves| - 1]]);
  }

  /** The padding is the recursive one: a half that gets no data of its own is a copy of the other half. */
  lemma PaddingIsRecursive<T>(hc: (H256, H256) -> H256, hash: T -> H256, data: seq<T>)
    requires data != []
    ensures |data| <= Pow2(Depth(|data|))
    ensures TreeOf(hc, hash, data).root == TopDown(hc, Leaves(hash, data), Depth(|data|))
  {
    BuildIsTopDown(hc, Leaves(hash, data), Depth(|data|));
  }
}
