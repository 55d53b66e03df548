/** A node that is fed blocks: what it ends up storing depends on which blocks were offered, not on the
    order, the grouping or the repetition in which they came. */
module Deliveries {
  import opened Bytes
  import opened Hash
  import opened Blocks
  import opened Chains
  import opened Cascades
  import opened Paths
  import opened Gossip

  /** The store after a sequence of `Blocks` messages. */
  ghost function StoreAfter(cr: Crypto, msgs: seq<seq<Block>>): (c: Chain)
    ensures Inv(cr, c) && Ready(c)
  {
    if msgs == [] then
      NewInv(cr);
      New(cr)
    else
      var before := StoreAfter(cr, msgs[..|msgs| - 1]);
      ReceiveAllInv(cr, before, msgs[|msgs| - 1]);
      ReceiveAll(cr, before, msgs[|msgs| - 1]).chain
  }

  ghost function Elements(bs: seq<Block>): set<Block> {
    set b | b in bs
  }

  ghost function Offered(msgs: seq<seq<Block>>): set<Block> {
    if msgs == [] then {} else Offered(msgs[..|msgs| - 1]) + Elements(msgs[|msgs| - 1])
  }

  /** A block that did its work. */
  predicate Works(cr: Crypto, b: Block) {
    Leq(BlockHash(cr, b), b.header.difficulty) && b.header.difficulty == DefaultDifficulty()
  }

  /** That is, if its hash is at most 256^31 and its difficulty is the default one. */
  lemma WorksIsNumeric(cr: Crypto, b: Block)
    ensures Works(cr, b) <==>
      Value(BlockHash(cr, b)) <= Pow256(31) && b.header.difficulty == DefaultDifficulty()
  {
    LeqIsNumeric(BlockHash(cr, b), b.header.difficulty);
    DifficultyValue();
  }

  // ----- What a store has to do with the blocks offered

  ghost predicate StoredOnly(cr: Crypto, c: Chain, o: set<Block>) {
    forall k :: k in c.blocks && k != Root(cr) ==> c.blocks[k] in o
  }

  ghost predicate WaitingOnly(cr: Crypto, c: Chain, o: set<Block>) {
    forall x: Block :: Waiting(c, x) ==> x in o && BlockHash(cr, x) != Root(cr)
  }

  ghost predicate SettledAll(cr: Crypto, c: Chain, o: set<Block>) {
    forall x :: x in o && Works(cr, x) ==> Settled(cr, c, x)
  }

  ghost predicate Faithful(cr: Crypto, c: Chain, o: set<Block>) {
    StoredOnly(cr, c, o) && WaitingOnly(cr, c, o) && SettledAll(cr, c, o)
  }

  lemma {:induction false} FaithfulStep(cr: Crypto, c: Chain, bs: seq<Block>, o: set<Block>)
    requires Inv(cr, c) && Faithful(cr, c, o)
    ensures Ready(c)
    ensures Faithful(cr, ReceiveAll(cr, c, bs).chain, o + Elements(bs))
  {
    ReceiveAllInv(cr, c, bs);
    var c', o' := ReceiveAll(cr, c, bs).chain, o + Elements(bs);
    forall k | k in c'.blocks && k != Root(cr) ensures c'.blocks[k] in o' {
      if k !in c.blocks {
        ReceiveAllStores(cr, c, bs, k);
      }
    }
    forall x: Block | Waiting(c', x) ensures x in o' && BlockHash(cr, x) != Root(cr) {
      ReceiveAllOrigin(cr, c, bs, x);
    }
    forall x | x in o' && Works(cr, x) ensures Settled(cr, c', x) {
      ReceiveAllSettles(cr, c, bs, x);
    }
  }

  lemma {:induction false} StoreFaithful(cr: Crypto, msgs: seq<seq<Block>>)
    ensures Faithful(cr, StoreAfter(cr, msgs), Offered(msgs))
  {
    if msgs == [] {
    } else {
      StoreFaithful(cr, msgs[..|msgs| - 1]);
      FaithfulStep(cr, StoreAfter(cr, msgs[..|msgs| - 1]), msgs[|msgs| - 1], Offered(msgs[..|msgs| - 1]));
    }
  }

  // ----- The stored hashes are a least fixed point

  /** `y` holds genesis, and with a parent every offered block that did its work. */
  ghost predicate Closed(cr: Crypto, o: set<Block>, y: set<H256>) {
    && Root(cr) in y
    && forall b :: b in o && Works(cr, b) && b.header.parent in y ==> BlockHash(cr, b) in y
  }

  lemma StoredIsClosed(cr: Crypto, c: Chain, o: set<Block>)
    requires Inv(cr, c) && Faithful(cr, c, o)
    ensures Closed(cr, o, c.blocks.Keys)
  {
    forall b | b in o && Works(cr, b) && b.header.parent in c.blocks ensures BlockHash(cr, b) in c.blocks {
      assert Settled(cr, c, b);
    }
  }

  lemma {:induction false} StoredIsLeast(cr: Crypto, c: Chain, o: set<Block>, y: set<H256>, k: H256)
    requires Inv(cr, c) && Faithful(cr, c, o) && Closed(cr, o, y) && k in c.blocks
    ensures k in y
    decreases c.heights[k]
  {
    if k == Root(cr) {
    } else {
      assert Linked(cr, c, k);
      StoredIsLeast(cr, c, o, y, c.blocks[k].header.parent);
    }
  }

  /** After any sequence of messages the stored hashes are exactly the least closed set: genesis, and all
      offered blocks that did their work and are connected to it through such blocks. */
  lemma {:induction false} StoredHashes(cr: Crypto, msgs: seq<seq<Block>>, y: set<H256>)
    ensures Closed(cr, Offered(msgs), StoreAfter(cr, msgs).blocks.Keys)
    ensures Closed(cr, Offered(msgs), y) ==> StoreAfter(cr, msgs).blocks.Keys <= y
  {
    var c, o := StoreAfter(cr, msgs), Offered(msgs);
    StoreFaithful(cr, msgs);
    StoredIsClosed(cr, c, o);
    if Closed(cr, o, y) {
      forall k | k in c.blocks ensures k in y {
        StoredIsLeast(cr, c, o, y, k);
      }
    }
  }

  // ----- Order independence

  /** Among the offered blocks and genesis, equal hashes mean equal headers. */
  ghost predicate CollisionFree(cr: Crypto, o: set<Block>) {
    forall a, b :: a in o + {Genesis()} && b in o + {Genesis()} ==>
      BlockHash(cr, a) == BlockHash(cr, b) ==> a.header == b.header
  }

  /** Among them, equal hashes mean equal blocks, contents included. */
  ghost predicate ContentFree(cr: Crypto, o: set<Block>) {
    forall a, b :: a in o + {Genesis()} && b in o + {Genesis()} && BlockHash(cr, a) == BlockHash(cr, b) ==> a == b
  }

  lemma StoredAlike(cr: Crypto, a: Chain, b: Chain, o: set<Block>)
    requires Inv(cr, a) && Inv(cr, b) && StoredOnly(cr, a, o) && StoredOnly(cr, b, o) && ContentFree(cr, o)
    ensures Alike(a, b)
  {
    forall h | h in a.blocks && h in b.blocks ensures a.blocks[h] == b.blocks[h] {
      if h != Root(cr) {
        assert Linked(cr, a, h) && Linked(cr, b, h);
      }
    }
  }

  ghost predicate Awaits(cr: Crypto, c: Chain, h: H256) {
    exists x: Block :: Waiting(c, x) && BlockHash(cr, x) == h
  }

  lemma SameHeader(cr: Crypto, a: Chain, b: Chain, o: set<Block>, k: H256)
    requires Inv(cr, a) && Inv(cr, b) && StoredOnly(cr, a, o) && StoredOnly(cr, b, o) && CollisionFree(cr, o)
    requires k in a.blocks && k in b.blocks
    ensures a.blocks[k].header == b.blocks[k].header
  {
    if k != Root(cr) {
      assert Linked(cr, a, k) && Linked(cr, b, k);
    }
  }

  lemma {:induction false} SameHeight(cr: Crypto, a: Chain, b: Chain, o: set<Block>, k: H256)
    requires Inv(cr, a) && Inv(cr, b) && StoredOnly(cr, a, o) && StoredOnly(cr, b, o) && CollisionFree(cr, o)
    requires k in a.blocks && k in b.blocks
    ensures a.heights[k] == b.heights[k]
    decreases a.heights[k]
  {
    if k == Root(cr) {
    } else {
      SameHeader(cr, a, b, o, k);
      assert Linked(cr, a, k) && Linked(cr, b, k);
      SameHeight(cr, a, b, o, a.blocks[k].header.parent);
    }
  }

  lemma ParentOfStored(cr: Crypto, c: Chain, o: set<Block>, x: Block)
    requires Inv(cr, c) && StoredOnly(cr, c, o) && CollisionFree(cr, o) && x in o
    requires BlockHash(cr, x) in c.blocks && BlockHash(cr, x) != Root(cr)
    ensures x.header.parent in c.blocks
  {
    assert Linked(cr, c, BlockHash(cr, x));
  }

  /** A waiting block is not stored. */
  lemma {:induction false} WaitingNotStored(cr: Crypto, c: Chain, o: set<Block>, x: Block)
    requires Inv(cr, c) && Faithful(cr, c, o) && CollisionFree(cr, o) && Waiting(c, x)
    ensures x in o && Works(cr, x) && BlockHash(cr, x) !in c.blocks
  {
    if BlockHash(cr, x) in c.blocks {
      ParentOfStored(cr, c, o, x);
    }
  }

  /** What waits is exactly what was offered, did its work and is not stored. */
  lemma AwaitsExactly(cr: Crypto, c: Chain, o: set<Block>, h: H256)
    requires Inv(cr, c) && Faithful(cr, c, o) && CollisionFree(cr, o)
    ensures Awaits(cr, c, h) <==> h !in c.blocks && exists x :: x in o && Works(cr, x) && BlockHash(cr, x) == h
  {
    if Awaits(cr, c, h) {
      var x: Block :| Waiting(c, x) && BlockHash(cr, x) == h;
      WaitingNotStored(cr, c, o, x);
    }
    if h !in c.blocks && exists x :: x in o && Works(cr, x) && BlockHash(cr, x) == h {
      var x :| x in o && Works(cr, x) && BlockHash(cr, x) == h;
      assert Settled(cr, c, x);
    }
  }

  lemma {:induction false} SameHashes(cr: Crypto, a: Chain, b: Chain, o: set<Block>)
    requires Inv(cr, a) && Inv(cr, b) && Faithful(cr, a, o) && Faithful(cr, b, o)
    ensures a.blocks.Keys <= b.blocks.Keys
  {
    StoredIsClosed(cr, b, o);
    forall k | k in a.blocks ensures k in b.blocks {
      StoredIsLeast(cr, a, o, b.blocks.Keys, k);
    }
  }

  lemma SameHeights(cr: Crypto, a: Chain, b: Chain, o: set<Block>)
    requires Inv(cr, a) && Inv(cr, b) && StoredOnly(cr, a, o) && StoredOnly(cr, b, o) && CollisionFree(cr, o)
    requires a.blocks.Keys == b.blocks.Keys
    ensures a.heights == b.heights && a.heights[a.tip] == b.heights[b.tip]
  {
    forall k | k in a.blocks ensures a.heights[k] == b.heights[k] {
      SameHeight(cr, a, b, o, k);
    }
  }

  /** Two stores over the same offered blocks hold the same hashes; if equal hashes mean equal headers, also the
      same heights, a tip of the same height, and the same waiting hashes; if they mean equal blocks, also the same
      blocks and states. */
  lemma {:induction false} FaithfulStoresAgree(cr: Crypto, a: Chain, b: Chain, o: set<Block>)
    requires Inv(cr, a) && Inv(cr, b) && Faithful(cr, a, o) && Faithful(cr, b, o)
    ensures a.blocks.Keys == b.blocks.Keys
    ensures CollisionFree(cr, o) ==>
      && a.heights == b.heights && a.heights[a.tip] == b.heights[b.tip]
      && forall h :: Awaits(cr, a, h) <==> Awaits(cr, b, h)
    ensures ContentFree(cr, o) ==> SameStore(a, b)
  {
    SameHashes(cr, a, b, o);
    SameHashes(cr, b, a, o);
    if ContentFree(cr, o) {
      StoredAlike(cr, a, b, o);
      AlikeIsSame(cr, a, b);
    }
    if CollisionFree(cr, o) {
      SameHeights(cr, a, b, o);
      forall h ensures Awaits(cr, a, h) <==> Awaits(cr, b, h) {
        AwaitsExactly(cr, a, o, h);
        AwaitsExactly(cr, b, o, h);
      }
    }
  }

  lemma {:induction false} OrderIndependence(cr: Crypto, msgs: seq<seq<Block>>, other: seq<seq<Block>>)
    requires Offered(msgs) == Offered(other)
    ensures var a, b := StoreAfter(cr, msgs), StoreAfter(cr, other);
      && a.blocks.Keys == b.blocks.Keys
      && (CollisionFree(cr, Offered(msgs)) ==>
        && a.heights == b.heights && a.heights[a.tip] == b.heights[b.tip]
        && forall h :: Awaits(cr, a, h) <==> Awaits(cr, b, h))
      && (ContentFree(cr, Offered(msgs)) ==> SameStore(a, b))
  {
    StoreFaithful(cr, msgs);
    StoreFaithful(cr, other);
    FaithfulStoresAgree(cr, StoreAfter(cr, msgs), StoreAfter(cr, other), Offered(msgs));
  }
}
