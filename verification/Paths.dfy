/** Chains of blocks inside the store: the longest chain (src/blockchain.rs:101-109), what an insertion does
    to it, and what the cached state of a block is. */
module Paths {
  import opened Hash
  import opened Blocks
  import opened Ledger
  import opened Histories
  import opened Chains
  import opened Cascades

  /** The hashes from the genesis block to `k`, found by following parents. */
  ghost function PathTo(cr: Crypto, c: Chain, k: H256): seq<H256>
    requires Tree(cr, c) && k in c.blocks
    decreases c.heights[k]
  {
    if c.heights[k] == 0 then [k]
    else
      assert Linked(cr, c, k);
      PathTo(cr, c, c.blocks[k].header.parent) + [k]
  }

  ghost function LongestChain(cr: Crypto, c: Chain): seq<H256>
    requires Tree(cr, c)
  {
    PathTo(cr, c, c.tip)
  }

  /** A parent-linked path of stored blocks that starts at the genesis block. */
  ghost predicate IsPath(cr: Crypto, c: Chain, p: seq<H256>) {
    && p != [] && p[0] == Root(cr)
    && (forall i :: 0 <= i < |p| ==> p[i] in c.blocks)
    && (forall i :: 0 < i < |p| ==> Follows(cr, c, p, i))
  }

  ghost predicate Follows(cr: Crypto, c: Chain, p: seq<H256>, i: nat)
    requires 0 < i < |p| && p[i] in c.blocks
  {
    p[i] != Root(cr) && c.blocks[p[i]].header.parent == p[i - 1]
  }

  /** On such a path every block's height is its place. */
  lemma {:induction false} HeightIsPlace(cr: Crypto, c: Chain, p: seq<H256>, i: nat)
    requires Tree(cr, c) && IsPath(cr, c, p) && i < |p|
    ensures c.heights[p[i]] == i
  {
    if i == 0 {
    } else {
      HeightIsPlace(cr, c, p, i - 1);
      assert Follows(cr, c, p, i);
      var k := p[i];
      assert Linked(cr, c, k);
    }
  }

  lemma {:induction false} PathToIsPath(cr: Crypto, c: Chain, k: H256)
    requires Tree(cr, c) && k in c.blocks
    ensures var p := PathTo(cr, c, k); IsPath(cr, c, p) && |p| == c.heights[k] + 1 && p[|p| - 1] == k
    decreases c.heights[k]
  {
    if c.heights[k] == 0 {
      assert k != Root(cr) ==> Linked(cr, c, k);
    } else {
      assert Linked(cr, c, k);
      var parent := c.blocks[k].header.parent;
      PathToIsPath(cr, c, parent);
      var q, p := PathTo(cr, c, parent), PathTo(cr, c, k);
      forall i | 0 < i < |p| ensures Follows(cr, c, p, i) {
        if i < |q| {
          assert Follows(cr, c, q, i);
        }
      }
    }
  }

  /** The longest-chain list runs from genesis to tip without repetition, and no path in the store is longer. */
  lemma LongestChainIsLongest(cr: Crypto, c: Chain, p: seq<H256>)
    requires Tree(cr, c)
    ensures var l := LongestChain(cr, c);
      && IsPath(cr, c, l) && l[|l| - 1] == c.tip && |l| == c.heights[c.tip] + 1
      && (forall i, j :: 0 <= i < j < |l| ==> l[i] != l[j])
    ensures IsPath(cr, c, p) ==> |p| <= |LongestChain(cr, c)|
  {
    var l := LongestChain(cr, c);
    PathToIsPath(cr, c, c.tip);
    forall i, j | 0 <= i < j < |l| ensures l[i] != l[j] {
      HeightIsPlace(cr, c, l, i);
      HeightIsPlace(cr, c, l, j);
    }
    if IsPath(cr, c, p) {
      HeightIsPlace(cr, c, p, |p| - 1);
      assert p[|p| - 1] in c.heights;
    }
  }

  /** Paths to blocks already stored do not change as the store grows. */
  lemma {:induction false} PathStable(cr: Crypto, c: Chain, c': Chain, k: H256)
    requires Tree(cr, c) && Tree(cr, c') && Grows(c, c') && k in c.blocks
    ensures PathTo(cr, c', k) == PathTo(cr, c, k)
    decreases c.heights[k]
  {
    if c.heights[k] == 0 {
    } else {
      assert Linked(cr, c, k);
      PathStable(cr, c, c', c.blocks[k].header.parent);
    }
  }

  // ----- Reorganisation

  /** The length of the longest common prefix. */
  ghost function ForkPoint(p: seq<H256>, q: seq<H256>): (f: nat)
    ensures f <= |p| && f <= |q|
    ensures f < |p| && f < |q| ==> p[f] != q[f]
    ensures forall i :: 0 <= i < f ==> p[i] == q[i]
  {
    if p == [] || q == [] || p[0] != q[0] then 0 else 1 + ForkPoint(p[1..], q[1..])
  }

  /** Two paths that have parted never meet again. */
  lemma {:induction false} PartedForGood(cr: Crypto, c: Chain, p: seq<H256>, q: seq<H256>, i: nat)
    requires Tree(cr, c) && IsPath(cr, c, p) && IsPath(cr, c, q) && i < |p| && i < |q|
    ensures p[i] == q[i] <==> i < ForkPoint(p, q)
  {
    if ForkPoint(p, q) < i {
      PartedForGood(cr, c, p, q, i - 1);
      assert Follows(cr, c, p, i) && Follows(cr, c, q, i);
    }
  }

  /** Inserting a new block leaves the longest chain as it is, or makes it one block longer: then the old
      list and the new one agree exactly up to where they fork, and the new one is the old one with the
      block at its end if and only if the parent was the tip. A tie keeps the tip that came first. */
  lemma Reorganisation(cr: Crypto, c: Chain, b: Block)
    requires Inv(cr, c) && Attachable(cr, c, b)
    ensures CanInsert(c, b) && Tree(cr, Insert(cr, c, b))
    ensures var c', parent := Insert(cr, c, b), b.header.parent;
      var before, after := LongestChain(cr, c), LongestChain(cr, c');
      if c.heights[parent] < c.heights[c.tip] then c'.tip == c.tip && after == before
      else
        && c'.tip == BlockHash(cr, b) && |after| == |before| + 1
        && after == PathTo(cr, c, parent) + [BlockHash(cr, b)]
        && (forall i :: 0 <= i < |before| ==> (before[i] == after[i] <==> i < ForkPoint(before, after)))
        && (after == before + [BlockHash(cr, b)] <==> parent == c.tip)
  {
    InsertTree(cr, c, b);
    var c', h := Insert(cr, c, b), BlockHash(cr, b);
    assert Grows(c, c');
    PathStable(cr, c, c', c.tip);
    PathStable(cr, c, c', b.header.parent);
    PathToIsPath(cr, c, c.tip);
    PathToIsPath(cr, c, b.header.parent);
    PathToIsPath(cr, c', c.tip);
    PathToIsPath(cr, c', c'.tip);
    var before, after := LongestChain(cr, c), LongestChain(cr, c');
    if c.heights[b.header.parent] == c.heights[c.tip] {
      assert after == PathTo(cr, c, b.header.parent) + [h];
      forall i | 0 <= i < |before| ensures before[i] == after[i] <==> i < ForkPoint(before, after) {
        PartedForGood(cr, c', before, after, i);
      }
      assert after[|before| - 1] == b.header.parent;
    }
  }

  // ----- States

  /** The transactions of the blocks of a path, in order. */
  ghost function TxsAlong(c: Chain, p: seq<H256>): seq<SignedTransaction>
    requires forall i :: 0 <= i < |p| ==> p[i] in c.blocks
  {
    if p == [] then []
    else TxsAlong(c, p[..|p| - 1]) + c.blocks[p[|p| - 1]].content.transactions
  }

  ghost function HistoryOf(cr: Crypto, c: Chain, k: H256): seq<SignedTransaction>
    requires Tree(cr, c) && k in c.blocks
  {
    PathToIsPath(cr, c, k);
    TxsAlong(c, PathTo(cr, c, k))
  }

  /** The cached state of every stored block is the initial state with the whole path from genesis replayed. */
  lemma {:induction false} StateIsReplay(cr: Crypto, c: Chain, k: H256)
    requires Inv(cr, c) && k in c.blocks
    ensures c.states[k] == ApplyAll(cr, Coins(cr, 13), HistoryOf(cr, c, k))
    decreases c.heights[k]
  {
    var p := PathTo(cr, c, k);
    PathToIsPath(cr, c, k);
    if k == Root(cr) {
      assert p == [k] && p[..0] == [];
      assert HistoryOf(cr, c, k) == TxsAlong(c, []) + Genesis().content.transactions == [];
    } else {
      assert Linked(cr, c, k) && Executed(cr, c, k);
      var parent := c.blocks[k].header.parent;
      StateIsReplay(cr, c, parent);
      assert p[..|p| - 1] == PathTo(cr, c, parent);
      ApplyConcat(cr, Coins(cr, 13), HistoryOf(cr, c, parent), c.blocks[k].content.transactions);
    }
  }

  // ----- Two stores

  /** A hash that both store names the same block in both. */
  ghost predicate Alike(a: Chain, b: Chain) {
    forall h :: h in a.blocks && h in b.blocks ==> a.blocks[h] == b.blocks[h]
  }

  /** Then it has the same height, the same state and the same path in both. */
  lemma {:induction false} AlikeAt(cr: Crypto, a: Chain, b: Chain, h: H256)
    requires Inv(cr, a) && Inv(cr, b) && Alike(a, b) && h in a.blocks && h in b.blocks
    ensures a.heights[h] == b.heights[h] && a.states[h] == b.states[h]
    ensures PathTo(cr, a, h) == PathTo(cr, b, h)
    decreases a.heights[h]
  {
    if h == Root(cr) {
    } else {
      assert Linked(cr, a, h) && Linked(cr, b, h) && Executed(cr, a, h) && Executed(cr, b, h);
      AlikeAt(cr, a, b, a.blocks[h].header.parent);
    }
  }

  /** The same blocks, heights and states, and tips of one height. */
  ghost predicate SameStore(a: Chain, b: Chain) {
    && a.blocks == b.blocks && a.heights == b.heights && a.states == b.states
    && a.tip in a.heights && b.tip in b.heights && a.heights[a.tip] == b.heights[b.tip]
  }

  lemma AlikeIsSame(cr: Crypto, a: Chain, b: Chain)
    requires Inv(cr, a) && Inv(cr, b) && Alike(a, b) && a.blocks.Keys == b.blocks.Keys
    ensures SameStore(a, b)
  {
    forall h | h in a.blocks ensures a.heights[h] == b.heights[h] && a.states[h] == b.states[h] {
      AlikeAt(cr, a, b, h);
    }
    assert a.tip in b.heights && b.tip in a.heights;
  }

  /** On every path from genesis whose transactions spend unspent outpoints, nothing is spent twice or
      created twice, the cached state holds what was created and not spent, and its value is accounted for. */
  lemma ChainLedger(cr: Crypto, c: Chain, k: H256)
    requires Inv(cr, c) && k in c.blocks
    requires WellSpent(cr, Coins(cr, 13), HistoryOf(cr, c, k)) && Sensible(cr, CoinHash(), HistoryOf(cr, c, k))
    ensures var txs, coins := HistoryOf(cr, c, k), Coins(cr, 13);
      && NoRepeats(cr, coins, txs)
      && (forall o :: o in c.states[k] <==> (o in coins || o in AllCreated(cr, txs)) && o !in AllSpent(txs))
      && Total(c.states[k]) + Consumed(cr, coins, txs) == Total(coins) + Produced(txs)
      && (Covered(cr, coins, txs) ==> Total(c.states[k]) <= Total(coins))
  {
    var txs, coins := HistoryOf(cr, c, k), Coins(cr, 13);
    StateIsReplay(cr, c, k);
    CoinsNamed(cr, 13);
    NothingTwice(cr, CoinHash(), coins, txs);
    ValueBalance(cr, coins, txs);
    if Covered(cr, coins, txs) {
      SupplyNeverGrows(cr, coins, txs);
    }
  }
}
