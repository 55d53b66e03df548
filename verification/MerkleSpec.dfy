/** The Merkle tree as a value: how levels are padded and joined, where each leaf comes from, and
    what an inclusion proof is (src/crypto/merkle.rs). SHA-256 is an arbitrary function `hc`. */
module MerkleSpec {
  import opened Hash
  import opened Options

  datatype Node = Node(left: Link, right: Link, hash: H256)
  datatype Link = Nil | Box(node: Node)

  /** The root node with the number of levels. */
  datatype MerkleTree = MerkleTree(root: Node, levelCount: nat) {
    function Root(): H256 {
      root.hash
    }

    predicate Valid(hc: (H256, H256) -> H256) {
      levelCount >= 1 && Perfect(hc, root, levelCount - 1)
    }
  }

  function Leaf(hash: H256): Node {
    Node(Nil, Nil, hash)
  }

  function Leaves<T>(hash: T -> H256, data: seq<T>): seq<Node> {
    seq(|data|, i requires 0 <= i < |data| => Leaf(hash(data[i])))
  }

  function Join(hc: (H256, H256) -> H256, left: Node, right: Node): Node {
    Node(Box(left), Box(right), hc(left.hash, right.hash))
  }

  // ----- Building bottom-up, as the source does

  /** How many pairs `n` nodes make once padded to an even number. */
  function Pairs(n: nat): (h: nat)
    ensures n <= 2 * h <= n + 1
  {
    if n == 0 then 0 else if n == 1 then 1 else 1 + Pairs(n - 2)
  }

  /** The next level: the nodes joined in pairs, the last one with a copy of itself if it is left over. */
  function Up(hc: (H256, H256) -> H256, level: seq<Node>): (up: seq<Node>)
    ensures |up| == Pairs(|level|)
  {
    if level == [] then []
    else if |level| == 1 then [Join(hc, level[0], level[0])]
    else [Join(hc, level[0], level[1])] + Up(hc, level[2..])
  }

  function Build(hc: (H256, H256) -> H256, level: seq<Node>): Node
    requires level != []
    decreases |level|
  {
    if |level| == 1 then level[0] else Build(hc, Up(hc, level))
  }

  /** How many joins separate a level of `n` nodes from the root. */
  function Depth(n: nat): nat
    requires n > 0
  {
    if n == 1 then 0 else 1 + Depth(Pairs(n))
  }

  // ----- Shape

  /** Every inner node down to depth `d` has two children and hashes them; the leaves have none. */
  predicate Perfect(hc: (H256, H256) -> H256, node: Node, d: nat) {
    if d == 0 then node.left.Nil? && node.right.Nil?
    else
      && node.left.Box? && node.right.Box?
      && Perfect(hc, node.left.node, d - 1) && Perfect(hc, node.right.node, d - 1)
      && node.hash == hc(node.left.node.hash, node.right.node.hash)
  }

  /** The left child for bit 0 and the right child for bit 1; a leaf stands for its own children. */
  function Child(node: Node, bit: nat): Node {
    var link := if bit == 0 then node.left else node.right;
    if link.Box? then link.node else node
  }

  /** The node reached from the root by `d` steps, choosing left and right by the `d` low bits of `i`,
      most significant first. */
  function Descend(root: Node, d: nat, i: nat): Node {
    if d == 0 then root else Child(Descend(root, d - 1, i / 2), i % 2)
  }

  lemma {:induction false} DescendPerfect(hc: (H256, H256) -> H256, root: Node, depth: nat, d: nat, i: nat)
    requires Perfect(hc, root, depth) && d <= depth
    ensures Perfect(hc, Descend(root, d, i), depth - d)
  {
    if d == 0 {
    } else {
      DescendPerfect(hc, root, depth, d - 1, i / 2);
    }
  }

  /** Which of the `n` given leaves ends up at position `i` of the padded leaf row: at each level an
      index past the end stands for a copy of the last node. */
  function Source(n: nat, i: nat): (j: nat)
    requires n > 0
    ensures j < n
  {
    if n == 1 then 0
    else
      var k := 2 * Source(Pairs(n), i / 2) + i % 2;
      if k < n then k else n - 1
  }

  /** The first `n` positions of the padded row hold the data in order. */
  lemma {:induction false} SourceOfDatum(n: nat, i: nat)
    requires i < n
    ensures Source(n, i) == i
  {
    if n == 1 {
    } else {
      SourceOfDatum(Pairs(n), i / 2);
    }
  }

  function Pow2(n: nat): (p: nat)
    ensures p > 0
  {
    if n == 0 then 1 else 2 * Pow2(n - 1)
  }

  /** The tree is exactly as deep as `n` leaves need. */
  lemma {:induction false} DepthBounds(n: nat)
    requires n > 0
    ensures n <= Pow2(Depth(n))
    ensures n > 1 ==> Depth(n) >= 1 && Pow2(Depth(n) - 1) < n
  {
    if n == 1 {
    } else {
      DepthBounds(Pairs(n));
    }
  }

  /** The node at index `k`, or the last one past the end. */
  function Clamped(level: seq<Node>, k: nat): Node
    requires level != []
  {
    if k < |level| then level[k] else level[|level| - 1]
  }

  lemma {:induction false} UpIndex(hc: (H256, H256) -> H256, level: seq<Node>, j: nat)
    requires j < Pairs(|level|)
    ensures Up(hc, level)[j] == Join(hc, Clamped(level, 2 * j), Clamped(level, 2 * j + 1))
    decreases j
  {
    if j == 0 {
    } else {
      UpIndex(hc, level[2..], j - 1);
    }
  }

  lemma {:induction false} UpChild(hc: (H256, H256) -> H256, level: seq<Node>, j: nat, bit: nat)
    requires j < Pairs(|level|) && bit < 2
    ensures Child(Up(hc, level)[j], bit) == Clamped(level, 2 * j + bit)
    decreases j
  {
    if j == 0 {
    } else {
      var rest := level[2..];
      UpChild(hc, rest, j - 1, bit);
      assert Up(hc, level)[j] == Up(hc, rest)[j - 1];
    }
  }

  predicate AllPerfect(hc: (H256, H256) -> H256, level: seq<Node>, e: nat) {
    forall k :: 0 <= k < |level| ==> Perfect(hc, level[k], e)
  }

  lemma UpPerfect(hc: (H256, H256) -> H256, level: seq<Node>, e: nat)
    requires AllPerfect(hc, level, e)
    ensures AllPerfect(hc, Up(hc, level), e + 1)
  {
    var up := Up(hc, level);
    forall k | 0 <= k < |up| ensures Perfect(hc, up[k], e + 1) {
      UpIndex(hc, level, k);
    }
  }

  lemma BuildStep(hc: (H256, H256) -> H256, level: seq<Node>)
    requires |level| > 1
    ensures Build(hc, level) == Build(hc, Up(hc, level))
    ensures Depth(|level|) == Depth(|Up(hc, level)|) + 1
  {
  }

  /** Building from perfect subtrees gives a perfect tree. */
  lemma {:induction false} BuildPerfect(hc: (H256, H256) -> H256, level: seq<Node>, e: nat, root: Node, depth: nat)
    requires level != [] && AllPerfect(hc, level, e)
    requires root == Build(hc, level) && depth == e + Depth(|level|)
    ensures Perfect(hc, root, depth)
    decreases |level|
  {
    if |level| == 1 {
      assert root == level[0];
    } else {
      BuildStep(hc, level);
      UpPerfect(hc, level, e);
      BuildPerfect(hc, Up(hc, level), e + 1, root, depth);
    }
  }

  /** Walking down from the root by the bits of `i` reaches the subtree that padding put at position `i`. */
  lemma {:induction false} BuildDescend(hc: (H256, H256) -> H256, level: seq<Node>, root: Node, d: nat, i: nat)
    requires level != [] && root == Build(hc, level) && d == Depth(|level|)
    ensures Descend(root, d, i) == level[Source(|level|, i)]
    decreases |level|
  {
    if |level| == 1 {
    } else {
      var j := Source(Pairs(|level|), i / 2);
      BuildStep(hc, level);
      BuildDescend(hc, Up(hc, level), root, d - 1, i / 2);
      UpChild(hc, level, j, i % 2);
    }
  }

  /** Repeating the last of an odd number of nodes does not change the level above. */
  lemma {:induction false} UpOdd(hc: (H256, H256) -> H256, level: seq<Node>)
    requires |level| % 2 == 1
    ensures Up(hc, level + [level[|level| - 1]]) == Up(hc, level)
  {
    if |level| == 1 {
      assert (level + [level[0]])[2..] == [];
    } else {
      var more := level + [level[|level| - 1]];
      UpOdd(hc, level[2..]);
      assert more[2..] == level[2..] + [level[|level| - 1]];
    }
  }

  ghost predicate SameRow(a: Node, b: Node, d: nat) {
    forall i: nat :: Descend(a, d, i) == Descend(b, d, i)
  }

  /** Perfect trees of one depth that are the same `d` steps below the root are the same. */
  lemma {:induction false} PerfectEqual(hc: (H256, H256) -> H256, a: Node, b: Node, depth: nat, d: nat)
    requires Perfect(hc, a, depth) && Perfect(hc, b, depth) && d <= depth && SameRow(a, b, d)
    ensures a == b
    decreases d
  {
    if d == 0 {
      assert Descend(a, 0, 0) == Descend(b, 0, 0);
    } else {
      var e := d - 1;
      forall j: nat ensures Descend(a, e, j) == Descend(b, e, j) {
        DescendPerfect(hc, a, depth, e, j);
        DescendPerfect(hc, b, depth, e, j);
        assert Descend(a, d, 2 * j) == Descend(b, d, 2 * j);
        assert Descend(a, d, 2 * j + 1) == Descend(b, d, 2 * j + 1);
      }
      PerfectEqual(hc, a, b, depth, e);
    }
  }

  // ----- A top-down reference for the padding

  /** The tree of depth `d` over at most 2^d nodes, defined from the root: when the nodes fit in half of
      it, the right half is a copy of the left. */
  function TopDown(hc: (H256, H256) -> H256, level: seq<Node>, d: nat): Node
    requires 0 < |level| <= Pow2(d)
  {
    if d == 0 then level[0]
    else
      var half := Pow2(d - 1);
      if |level| <= half then
        var copy := TopDown(hc, level, d - 1);
        Join(hc, copy, copy)
      else
        Join(hc, TopDown(hc, level[..half], d - 1), TopDown(hc, level[half..], d - 1))
  }

  /** Joining a level that is cut at an even place joins the two parts. */
  lemma {:induction false} UpSplit(hc: (H256, H256) -> H256, level: seq<Node>, q: nat)
    requires 2 * q <= |level|
    ensures Up(hc, level) == Up(hc, level[..2 * q]) + Up(hc, level[2 * q..])
    ensures |Up(hc, level[..2 * q])| == q
    decreases q
  {
    if q == 0 {
      assert level[0..] == level;
    } else {
      UpSplit(hc, level[2..], q - 1);
      assert level[..2 * q][2..] == level[2..][..2 * (q - 1)];
      assert level[2 * q..] == level[2..][2 * (q - 1)..];
    }
  }

  /** One bottom-up pass does not change the top-down tree. */
  lemma {:induction false} TopDownUp(hc: (H256, H256) -> H256, level: seq<Node>, d: nat)
    requires d > 0 && 0 < |level| <= Pow2(d)
    ensures |Up(hc, level)| <= Pow2(d - 1)
    ensures TopDown(hc, level, d) == TopDown(hc, Up(hc, level), d - 1)
    decreases d
  {
    var e := d - 1;
    var half, up := Pow2(e), Up(hc, level);
    if e == 0 {
      assert |level| == 2 ==> level[..1] == [level[0]] && level[1..] == [level[1]];
    } else if |level| <= half {
      TopDownUp(hc, level, e);
    } else {
      var q := Pow2(e - 1);
      UpSplit(hc, level, q);
      assert up[..q] == Up(hc, level[..half]) && up[q..] == Up(hc, level[half..]);
      TopDownUp(hc, level[..half], e);
      TopDownUp(hc, level[half..], e);
    }
  }

  /** The bottom-up construction refines the top-down one. */
  lemma {:induction false} BuildIsTopDown(hc: (H256, H256) -> H256, level: seq<Node>, d: nat)
    requires level != [] && d == Depth(|level|)
    ensures |level| <= Pow2(d)
    ensures Build(hc, level) == TopDown(hc, level, d)
    decreases |level|
  {
    DepthBounds(|level|);
    if |level| == 1 {
    } else {
      var up := Up(hc, level);
      BuildIsTopDown(hc, up, d - 1);
      TopDownUp(hc, level, d);
      assert Build(hc, level) == Build(hc, up);
    }
  }

  // ----- Inclusion proofs

  /** The sibling hashes along the walk of length `d` chosen by `i`, deepest first. */
  function Siblings(root: Node, d: nat, i: nat): (proof: seq<H256>)
    ensures |proof| == d
  {
    if d == 0 then []
    else [Child(Descend(root, d - 1, i / 2), 1 - i % 2).hash] + Siblings(root, d - 1, i / 2)
  }

  /** One step of the check: `datum` is the left child when the bit is 0, the right child otherwise. */
  function Combine(hc: (H256, H256) -> H256, datum: H256, sibling: H256, bit: nat): H256 {
    if bit == 0 then hc(datum, sibling) else hc(sibling, datum)
  }

  function Fold(hc: (H256, H256) -> H256, datum: H256, proof: seq<H256>, i: nat): H256
    decreases |proof|
  {
    if proof == [] then datum else Fold(hc, Combine(hc, datum, proof[0], i % 2), proof[1..], i / 2)
  }

  /** Folding any node of a perfect tree with its siblings gives the root. */
  lemma {:induction false} FoldSiblings(hc: (H256, H256) -> H256, root: Node, depth: nat, d: nat, i: nat)
    requires Perfect(hc, root, depth) && d <= depth
    ensures Fold(hc, Descend(root, d, i).hash, Siblings(root, d, i), i) == root.hash
  {
    if d == 0 {
    } else {
      var parent := Descend(root, d - 1, i / 2);
      DescendPerfect(hc, root, depth, d - 1, i / 2);
      assert Siblings(root, d, i)[1..] == Siblings(root, d - 1, i / 2);
      assert Combine(hc, Child(parent, i % 2).hash, Child(parent, 1 - i % 2).hash, i % 2) == parent.hash;
      FoldSiblings(hc, root, depth, d - 1, i / 2);
    }
  }

  /** One more sibling at the bottom of a proof. */
  lemma FoldOneMore(hc: (H256, H256) -> H256, x: H256, y: H256, proof: seq<H256>, i: nat)
    ensures Fold(hc, x, [y] + proof, 2 * i) == Fold(hc, hc(x, y), proof, i)
    ensures Fold(hc, y, [x] + proof, 2 * i + 1) == Fold(hc, hc(x, y), proof, i)
  {
    assert ([y] + proof)[1..] == proof && ([x] + proof)[1..] == proof;
  }

  /** Two different pairs of children with the same hash. */
  datatype Collision = Collision(claimed: (H256, H256), actual: (H256, H256))

  predicate IsCollision(hc: (H256, H256) -> H256, c: Collision) {
    c.claimed != c.actual && hc(c.claimed.0, c.claimed.1) == hc(c.actual.0, c.actual.1)
  }

  /** Searches the walk chosen by `i` for a collision between the claimed and the actual children. */
  function FindCollision(hc: (H256, H256) -> H256, root: Node, datum: H256, proof: seq<H256>,
          i: nat): (r: Option<Collision>)
    ensures r.Some? ==> IsCollision(hc, r.value)
    decreases |proof|
  {
    if proof == [] then None
    else
      var above := FindCollision(hc, root, Combine(hc, datum, proof[0], i % 2), proof[1..], i / 2);
      var node := Descend(root, |proof| - 1, i / 2);
      var claimed := if i % 2 == 0 then (datum, proof[0]) else (proof[0], datum);
      var actual := (Child(node, 0).hash, Child(node, 1).hash);
      if above.Some? then above
      else if claimed != actual && hc(claimed.0, claimed.1) == hc(actual.0, actual.1) then
        Some(Collision(claimed, actual))
      else None
  }

  /** If a proof no longer than the tree is deep folds `datum` to the root, then `datum` is the hash of
      the node that the walk reaches and the proof lists the siblings on the way, or the search returns a
      collision. */
  lemma {:induction false} FoldSound(hc: (H256, H256) -> H256, root: Node, depth: nat, datum: H256, proof: seq<H256>,
          i: nat)
    requires Perfect(hc, root, depth) && |proof| <= depth
    requires Fold(hc, datum, proof, i) == root.hash
    ensures
      || (datum == Descend(root, |proof|, i).hash && proof == Siblings(root, |proof|, i))
      || FindCollision(hc, root, datum, proof, i).Some?
    decreases |proof|
  {
    if proof == [] {
    } else {
      DescendPerfect(hc, root, depth, |proof| - 1, i / 2);
      FoldSound(hc, root, depth, Combine(hc, datum, proof[0], i % 2), proof[1..], i / 2);
      assert proof == [proof[0]] + proof[1..];
    }
  }

  /** `i` halved `k` times. */
  function Shifted(i: nat, k: nat): nat {
    if k == 0 then i else Shifted(i, k - 1) / 2
  }

  lemma {:induction false} ShiftedFront(i: nat, k: nat)
    ensures Shifted(i, k + 1) == Shifted(i / 2, k)
  {
    if k == 0 {
      assert Shifted(i, 1) == Shifted(i, 0) / 2;
    } else {
      ShiftedFront(i, k - 1);
    }
  }

  /** Folding a proof is folding its first part and then the rest. */
  lemma {:induction false} FoldCut(hc: (H256, H256) -> H256, datum: H256, proof: seq<H256>, i: nat, e: nat)
    requires e <= |proof|
    ensures Fold(hc, datum, proof, i) == Fold(hc, Fold(hc, datum, proof[..e], i), proof[e..], Shifted(i, e))
    decreases e
  {
    if e == 0 {
      assert proof[0..] == proof;
    } else {
      var rest := proof[1..];
      FoldCut(hc, Combine(hc, datum, proof[0], i % 2), rest, i / 2, e - 1);
      assert proof[..e][1..] == rest[..e - 1] && rest[e - 1..] == proof[e..];
      ShiftedFront(i, e - 1);
    }
  }
}
