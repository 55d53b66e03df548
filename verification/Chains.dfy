/** The block store as a value (src/blockchain.rs): the operations that change it, and the invariant that
    every run of honest miners and workers keeps. */
module Chains {
  import opened Bytes
  import opened Hash
  import opened Blocks
  import opened Ledger
  import opened Options

  datatype Chain = Chain(
    blocks: map<H256, Block>,
    heights: map<H256, nat>,
    tip: H256,
    difficulty: H256,
    orphans: map<H256, seq<Block>>,    // waiting blocks, keyed by the parent they miss
    states: map<H256, State>
  )

  // ----- The initial store

  /** The hash that names the initial coins, and their twelve outpoints. */
  function CoinHash(): H256 {
    Repeated(50)
  }

  function Coins(cr: Crypto, count: nat): State {
    map n: nat | 1 <= n < count :: TransactionInput(n, CoinHash()) := TransactionOutput(cr.owner(n % 3), Repeated(10))
  }

  function New(cr: Crypto): Chain {
    var root := Root(cr);
    Chain(map[root := Genesis()], map[root := 0], root, DefaultDifficulty(), map[], map[root := Coins(cr, 13)])
  }

  lemma CoinsNamed(cr: Crypto, count: nat)
    ensures forall k :: k in Coins(cr, count) ==> k.prevTx == CoinHash()
  {
  }

  lemma OneMoreCoin(cr: Crypto, n: nat, coin: H256)
    requires n >= 1 && coin == Repeated(10)
    ensures Total(Coins(cr, n + 1)) == Total(Coins(cr, n)) + Value(coin)
  {
    var k, o := TransactionInput(n, CoinHash()), TransactionOutput(cr.owner(n % 3), coin);
    assert Coins(cr, n + 1) == Coins(cr, n)[k := o];
    TotalInsert(Coins(cr, n), k, o);
  }

  lemma OneMore(n: nat, v: nat)
    requires n >= 1
    ensures (n - 1) * v + v == n * v
  {
  }

  /** Together they are worth as many times 32 bytes of 10 as there are. */
  lemma {:induction false} CoinsWorth(cr: Crypto, count: nat, coin: H256)
    requires count >= 1 && coin == Repeated(10)
    ensures Total(Coins(cr, count)) == (count - 1) * Value(coin)
  {
    if count == 1 {
      assert Coins(cr, 1) == map[];
    } else {
      CoinsWorth(cr, count - 1, coin);
      OneMoreCoin(cr, count - 1, coin);
      OneMore(count - 1, Value(coin));
    }
  }

  /** The twelve coins have the indexes 1 to 12 of a hash of 32 bytes of 50, the three owners hold every third of
      them, and each carries 32 bytes of 10. */
  lemma CoinsExactly(cr: Crypto, k: TransactionInput)
    ensures var coins := New(cr).states[Root(cr)];
      && (k in coins <==> 1 <= k.txid <= 12 && k.prevTx.bytes == seq(32, _ => 50))
      && (k in coins ==> coins[k].recipient == cr.owner(k.txid % 3) && coins[k].value.bytes == seq(32, _ => 10))
  {
    assert k.prevTx.bytes == seq(32, _ => 50) ==> k.prevTx == CoinHash();
  }

  /** The new store is worth twelve of them. */
  lemma CoinsTotal(cr: Crypto, coin: H256)
    requires coin == Repeated(10)
    ensures Total(New(cr).states[Root(cr)]) == 12 * Value(coin)
  {
    CoinsWorth(cr, 13, coin);
  }

  /** Which coins each owner holds. */
  lemma OwnersCoins(cr: Crypto, i: nat)
    requires 1 <= i <= 12
    ensures var coins := New(cr).states[Root(cr)]; TransactionInput(i, CoinHash()) in coins
    ensures var owner := New(cr).states[Root(cr)][TransactionInput(i, CoinHash())].recipient;
      && (i in [1, 4, 7, 10] ==> owner == cr.owner(1))
      && (i in [2, 5, 8, 11] ==> owner == cr.owner(2))
      && (i in [3, 6, 9, 12] ==> owner == cr.owner(0))
  {
  }

  // ----- Checks

  predicate Contains(c: Chain, h: H256) {
    h in c.blocks
  }

  predicate PowValid(cr: Crypto, c: Chain, b: Block) {
    Leq(BlockHash(cr, b), b.header.difficulty) && b.header.difficulty == c.difficulty
  }

  /** A block is valid if its hash, as a number, is at most its difficulty, and that is the store's. */
  lemma PowIsNumeric(cr: Crypto, c: Chain, b: Block)
    ensures PowValid(cr, c, b) <==>
      Value(BlockHash(cr, b)) <= Value(b.header.difficulty) && b.header.difficulty == c.difficulty
  {
    LeqIsNumeric(BlockHash(cr, b), b.header.difficulty);
  }

  predicate ParentStored(c: Chain, b: Block) {
    Contains(c, b.header.parent)
  }

  // ----- Updates

  /** What `insert` looks up and would otherwise panic on. */
  predicate CanInsert(c: Chain, b: Block) {
    b.header.parent in c.heights && b.header.parent in c.states && c.tip in c.heights
  }

  /** `insert`, with the child's state stored as intended. */
  function Insert(cr: Crypto, c: Chain, b: Block): Chain
    requires CanInsert(c, b)
  {
    var h := BlockHash(cr, b);
    var heights := c.heights[h := c.heights[b.header.parent] + 1];
    c.(blocks := c.blocks[h := b],
       heights := heights,
       tip := if heights[h] > heights[c.tip] then h else c.tip,
       states := c.states[h := ApplyAll(cr, c.states[b.header.parent], b.content.transactions)])
  }

  function WaitingFor(c: Chain, h: H256): seq<Block> {
    if h in c.orphans then c.orphans[h] else []
  }

  predicate Waiting(c: Chain, b: Block) {
    b in WaitingFor(c, b.header.parent)
  }

  function AddOrphan(c: Chain, b: Block): Chain {
    c.(orphans := c.orphans[b.header.parent := WaitingFor(c, b.header.parent) + [b]])
  }

  /** Inserts `b` and takes the blocks that wait for it out of the buffer. */
  function Adopt(cr: Crypto, c: Chain, b: Block): Chain
    requires CanInsert(c, b)
  {
    Insert(cr, c, b).(orphans := c.orphans - {BlockHash(cr, b)})
  }

  // ----- Invariant

  /** Every stored block is filed under its hash, below a stored parent and one higher, and did its work. */
  ghost predicate Linked(cr: Crypto, c: Chain, k: H256)
    requires k in c.blocks && c.heights.Keys == c.blocks.Keys
  {
    var b := c.blocks[k];
    && BlockHash(cr, b) == k
    && b.header.parent in c.blocks
    && c.heights[k] == c.heights[b.header.parent] + 1
    && PowValid(cr, c, b)
  }

  ghost predicate Rooted(cr: Crypto, c: Chain) {
    && Root(cr) in c.blocks && c.blocks[Root(cr)] == Genesis()
    && Root(cr) in c.heights && c.heights[Root(cr)] == 0
    && c.difficulty == DefaultDifficulty()
  }

  ghost predicate TipHighest(c: Chain) {
    && c.tip in c.heights
    && forall k :: k in c.heights ==> c.heights[k] <= c.heights[c.tip]
  }

  ghost predicate Tree(cr: Crypto, c: Chain) {
    && c.heights.Keys == c.blocks.Keys
    && Rooted(cr, c) && TipHighest(c)
    && forall k {:trigger Linked(cr, c, k)} :: k in c.blocks && k != Root(cr) ==> Linked(cr, c, k)
  }

  /** Every waiting block did its work and waits under its own parent, which is not stored. */
  ghost predicate Buffer(cr: Crypto, c: Chain) {
    forall k :: k in c.orphans ==>
      && k !in c.blocks && c.orphans[k] != []
      && forall b :: b in c.orphans[k] ==> b.header.parent == k && PowValid(cr, c, b)
  }

  /** Every stored state is its parent's state with the block executed on it. */
  ghost predicate Replayed(cr: Crypto, c: Chain) {
    && c.states.Keys == c.blocks.Keys
    && Root(cr) in c.states && c.states[Root(cr)] == Coins(cr, 13)
    && forall k {:trigger Executed(cr, c, k)} :: k in c.blocks && k != Root(cr) ==> Executed(cr, c, k)
  }

  ghost predicate Executed(cr: Crypto, c: Chain, k: H256)
    requires k in c.blocks && k in c.states
  {
    && c.blocks[k].header.parent in c.states
    && c.states[k] == ApplyAll(cr, c.states[c.blocks[k].header.parent], c.blocks[k].content.transactions)
  }

  ghost predicate Inv(cr: Crypto, c: Chain) {
    Tree(cr, c) && Buffer(cr, c) && Replayed(cr, c)
  }

  lemma NewInv(cr: Crypto)
    ensures Inv(cr, New(cr))
  {
  }

  /** A block that is new, did its work and has a stored parent. */
  ghost predicate Attachable(cr: Crypto, c: Chain, b: Block) {
    BlockHash(cr, b) !in c.blocks && PowValid(cr, c, b) && ParentStored(c, b)
  }

  lemma InsertTree(cr: Crypto, c: Chain, b: Block)
    requires Tree(cr, c) && CanInsert(c, b) && Attachable(cr, c, b)
    ensures Tree(cr, Insert(cr, c, b))
  {
    var c' := Insert(cr, c, b);
    forall k | k in c'.blocks && k != Root(cr) ensures Linked(cr, c', k) {
      if k in c.blocks {
        assert Linked(cr, c, k);
      }
    }
  }

  lemma InsertReplayed(cr: Crypto, c: Chain, b: Block)
    requires Tree(cr, c) && Replayed(cr, c) && CanInsert(c, b) && Attachable(cr, c, b)
    ensures Replayed(cr, Insert(cr, c, b))
  {
    var c' := Insert(cr, c, b);
    forall k | k in c'.blocks && k != Root(cr) ensures Executed(cr, c', k) {
      if k in c.blocks {
        assert Linked(cr, c, k) && Executed(cr, c, k);
      }
    }
  }

  /** Adopting a block keeps the invariant. */
  lemma AdoptInv(cr: Crypto, c: Chain, b: Block)
    requires Inv(cr, c) && Attachable(cr, c, b)
    ensures CanInsert(c, b) && Inv(cr, Adopt(cr, c, b))
  {
    InsertTree(cr, c, b);
    InsertReplayed(cr, c, b);
    var c1, c' := Insert(cr, c, b), Adopt(cr, c, b);
    forall k | k in c'.blocks && k != Root(cr) ensures Linked(cr, c', k) && Executed(cr, c', k) {
      assert Linked(cr, c1, k) && Executed(cr, c1, k);
    }
  }

  /** The miner's plain insert keeps the invariant exactly when no block waits for the new one. */
  lemma PlainInsertInv(cr: Crypto, c: Chain, b: Block)
    requires Inv(cr, c) && Attachable(cr, c, b)
    ensures CanInsert(c, b)
    ensures Inv(cr, Insert(cr, c, b)) <==> BlockHash(cr, b) !in c.orphans
  {
    InsertTree(cr, c, b);
    InsertReplayed(cr, c, b);
  }

  lemma AddOrphanInv(cr: Crypto, c: Chain, b: Block)
    requires Inv(cr, c) && PowValid(cr, c, b) && !ParentStored(c, b)
    ensures Inv(cr, AddOrphan(c, b)) && Waiting(AddOrphan(c, b), b)
  {
    var c' := AddOrphan(c, b);
    forall k | k in c.blocks && k != Root(cr) ensures Linked(cr, c', k) && Executed(cr, c', k) {
      assert Linked(cr, c, k) && Executed(cr, c, k);
    }
  }

  // ----- The source as written

  /** Insertions as written, which execute the block on a copy of its parent's state and drop the copy;
      `None` is a panic. */
  function RunAsWritten(cr: Crypto, bs: seq<Block>): Option<Chain> {
    if bs == [] then Some(New(cr))
    else
      var before, b := RunAsWritten(cr, bs[..|bs| - 1]), bs[|bs| - 1];
      if before.Some? && CanInsert(before.value, b) then
        Some(Insert(cr, before.value, b).(states := before.value.states))
      else None
  }

  /** Without the repair, a sequence of insertions survives exactly when every block hangs directly on genesis. */
  lemma {:induction false} AsWrittenOnlyGenesisChildren(cr: Crypto, bs: seq<Block>)
    ensures RunAsWritten(cr, bs).Some? <==> forall b :: b in bs ==> b.header.parent == Root(cr)
    ensures RunAsWritten(cr, bs).Some? ==>
      var c := RunAsWritten(cr, bs).value;
      c.states.Keys == {Root(cr)} && Root(cr) in c.heights && c.tip in c.heights
  {
    if bs == [] {
    } else {
      var init, last := bs[..|bs| - 1], bs[|bs| - 1];
      assert bs == init + [last];
      AsWrittenOnlyGenesisChildren(cr, init);
    }
  }
}
