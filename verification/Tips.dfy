/** Which block is the tip (src/blockchain.rs:87-89): the first one seen among the highest. So the same blocks
    can leave any of the highest as the tip, and nothing else, depending on the order in which they arrive. */
module Tips {
  import opened Hash
  import opened Blocks
  import opened Chains
  import opened Cascades
  import opened Ledger
  import opened Gossip
  import opened Deliveries
  import opened Sequences

  // ----- The tip moves only to a strictly greater height

  ghost predicate TipKept(c: Chain, c': Chain) {
    && c.tip in c.heights && c'.tip in c'.heights
    && (c'.tip == c.tip || c'.heights[c'.tip] > c.heights[c.tip])
  }

  lemma TipKeptTransitive(a: Chain, b: Chain, c: Chain)
    requires TipKept(a, b) && TipKept(b, c) && Grows(a, b) && Grows(b, c)
    ensures TipKept(a, c)
  {
  }

  lemma {:induction false} CascadeTip(cr: Crypto, c: Chain, stack: seq<Block>, out: seq<H256>)
    requires Ready(c) && AllParentsStored(c, stack)
    ensures TipKept(c, Cascade(cr, c, stack, out).chain)
    decreases c.orphans.Keys, |stack|
  {
    if stack == [] {
    } else if Contains(c, BlockHash(cr, stack[0])) {
      CascadeTip(cr, c, stack[1..], out);
    } else {
      NextReady(cr, c, stack);
      var c1, next := Adopt(cr, c, stack[0]), NextStack(cr, c, stack);
      CascadeTip(cr, c1, next, out + [BlockHash(cr, stack[0])]);
      CascadeGrows(cr, c1, next, out + [BlockHash(cr, stack[0])]);
      TipKeptTransitive(c, c1, Cascade(cr, c, stack, out).chain);
    }
  }

  lemma ReceiveOneTip(cr: Crypto, t: Batch, b: Block)
    requires Ready(t.chain)
    ensures TipKept(t.chain, ReceiveOne(cr, t, b).chain)
  {
    if ParentStored(t.chain, b) {
      CascadeTip(cr, t.chain, [b], t.relay);
    }
  }

  lemma {:induction false} ReceiveAllTip(cr: Crypto, c: Chain, bs: seq<Block>)
    requires Inv(cr, c)
    ensures Ready(c) && TipKept(c, ReceiveAll(cr, c, bs).chain)
  {
    InvReady(cr, c);
    if bs == [] {
    } else {
      var before := ReceiveAll(cr, c, bs[..|bs| - 1]);
      ReceiveAllInv(cr, c, bs[..|bs| - 1]);
      ReceiveOneInv(cr, before, bs[|bs| - 1]);
      ReceiveAllTip(cr, c, bs[..|bs| - 1]);
      ReceiveOneTip(cr, before, bs[|bs| - 1]);
      TipKeptTransitive(c, before.chain, ReceiveAll(cr, c, bs).chain);
    }
  }

  lemma StoreAfterAppend(cr: Crypto, msgs: seq<seq<Block>>, bs: seq<Block>)
    ensures StoreAfter(cr, msgs + [bs]) == ReceiveAll(cr, StoreAfter(cr, msgs), bs).chain
  {
    assert (msgs + [bs])[..|msgs|] == msgs;
  }

  lemma StoreAfterOne(cr: Crypto, msgs: seq<seq<Block>>, bs: seq<Block>)
    ensures var c, c' := StoreAfter(cr, msgs), StoreAfter(cr, msgs + [bs]);
      Grows(c, c') && TipKept(c, c')
  {
    StoreAfterAppend(cr, msgs, bs);
    ReceiveAllInv(cr, StoreAfter(cr, msgs), bs);
    ReceiveAllTip(cr, StoreAfter(cr, msgs), bs);
  }

  lemma {:induction false} StoreAfterMore(cr: Crypto, first: seq<seq<Block>>, more: seq<seq<Block>>)
    ensures var c, c' := StoreAfter(cr, first), StoreAfter(cr, first + more);
      Grows(c, c') && TipKept(c, c')
  {
    if more == [] {
      assert first + more == first;
    } else {
      var init, last := more[..|more| - 1], more[|more| - 1];
      var c, before, after := StoreAfter(cr, first), StoreAfter(cr, first + init),
        StoreAfter(cr, first + init + [last]);
      StoreAfterMore(cr, first, init);
      StoreAfterOne(cr, first + init, last);
      GrowsTransitive(c, before, after);
      TipKeptTransitive(c, before, after);
      AppendAssociates(first, init, [last]);
      assert more == init + [last];
    }
  }

  /** Further messages leave the tip where it is if and only if they leave its height as it is. */
  lemma TipStaysIff(cr: Crypto, first: seq<seq<Block>>, more: seq<seq<Block>>)
    ensures var c, c' := StoreAfter(cr, first), StoreAfter(cr, first + more);
      && c.tip in c.heights && c'.tip in c'.heights
      && (c'.tip == c.tip <==> c'.heights[c'.tip] == c.heights[c.tip])
  {
    StoreAfterMore(cr, first, more);
  }

  /** Of two blocks tied above the tip, neither of which is waited for, the first one to arrive wins. */
  lemma FirstOfTiedWins(cr: Crypto, msgs: seq<seq<Block>>, x: Block, y: Block)
    requires var c := StoreAfter(cr, msgs);
      && Attachable(cr, c, x) && Attachable(cr, c, y)
      && c.heights[x.header.parent] == c.heights[c.tip] == c.heights[y.header.parent]
      && BlockHash(cr, x) !in c.orphans && BlockHash(cr, y) !in c.orphans
    ensures StoreAfter(cr, msgs + [[x]] + [[y]]).tip == BlockHash(cr, x)
  {
    var c, c1 := StoreAfter(cr, msgs), StoreAfter(cr, msgs + [[x]]);
    StoreAfterAppend(cr, msgs, [x]);
    StoreAfterAppend(cr, msgs + [[x]], [y]);
    OneBlock(cr, c, x);
    assert c1 == Insert(cr, c, x);
    OneBlock(cr, c1, y);
  }

  /** A valid block with a stored parent, which nothing waits for, is simply inserted. */
  lemma OneBlock(cr: Crypto, c: Chain, x: Block)
    requires Inv(cr, c) && PowValid(cr, c, x) && ParentStored(c, x) && BlockHash(cr, x) !in c.orphans
    ensures Ready(c)
    ensures ReceiveAll(cr, c, [x]).chain == if Contains(c, BlockHash(cr, x)) then c else Insert(cr, c, x)
  {
    InvReady(cr, c);
    var t := Batch(c, [], [], []);
    assert [x][..0] == [];
    assert ReceiveAll(cr, c, [x]) == ReceiveOne(cr, t, x);
    if !Contains(c, BlockHash(cr, x)) {
      NextReady(cr, c, [x]);
      assert c.orphans - {BlockHash(cr, x)} == c.orphans;
      assert NextStack(cr, c, [x]) == [];
      assert Cascade(cr, c, [x], []).chain == Adopt(cr, c, x);
    }
  }

  /** Of two contents under one header, the first one to arrive is stored and executed: the hash does not cover
      the content, so contents and states do depend on the order. */
  lemma FirstContentWins(cr: Crypto, msgs: seq<seq<Block>>, x: Block, y: Block)
    requires var c := StoreAfter(cr, msgs); Attachable(cr, c, x) && BlockHash(cr, x) !in c.orphans
    requires x.header == y.header
    ensures var h, c, c' := BlockHash(cr, x), StoreAfter(cr, msgs), StoreAfter(cr, msgs + [[x]] + [[y]]);
      && h in c'.blocks && c'.blocks[h] == x
      && h in c'.states && x.header.parent in c.states
      && c'.states[h] == ApplyAll(cr, c.states[x.header.parent], x.content.transactions)
  {
    var c := StoreAfter(cr, msgs);
    StoreAfterAppend(cr, msgs, [x]);
    StoreAfterAppend(cr, msgs + [[x]], [y]);
    OneBlock(cr, c, x);
    OneBlock(cr, Insert(cr, c, x), y);
  }

  // ----- Any of the highest blocks can be the tip

  /** The blocks on the path to `k`, without genesis. */
  ghost function PathBlocks(cr: Crypto, c: Chain, k: H256): seq<Block>
    requires Tree(cr, c) && k in c.blocks
    decreases c.heights[k]
  {
    if c.heights[k] == 0 then []
    else
      assert Linked(cr, c, k);
      PathBlocks(cr, c, c.blocks[k].header.parent) + [c.blocks[k]]
  }

  /** They are stored, none is higher than `k`, and only `k` is as high. */
  lemma {:induction false} OnPath(cr: Crypto, c: Chain, k: H256, b: Block)
    requires Tree(cr, c) && k in c.blocks && b in PathBlocks(cr, c, k)
    ensures var h := BlockHash(cr, b);
      && h != Root(cr) && h in c.blocks && c.blocks[h] == b && c.heights[h] <= c.heights[k]
      && (c.heights[h] == c.heights[k] ==> h == k)
    decreases c.heights[k]
  {
    assert Linked(cr, c, k);
    if b == c.blocks[k] {
    } else {
      OnPath(cr, c, c.blocks[k].header.parent, b);
    }
  }

  /** Any set that is closed under them contains `k`. */
  lemma {:induction false} PathReaches(cr: Crypto, c: Chain, k: H256, o: set<Block>, y: set<H256>)
    requires Tree(cr, c) && k in c.blocks && Closed(cr, o, y)
    requires forall b :: b in PathBlocks(cr, c, k) ==> b in o
    ensures k in y
    decreases c.heights[k]
  {
    if c.heights[k] == 0 {
      assert k != Root(cr) ==> Linked(cr, c, k);
    } else {
      assert Linked(cr, c, k);
      PathReaches(cr, c, c.blocks[k].header.parent, o, y);
      assert c.blocks[k] in PathBlocks(cr, c, k);
    }
  }

  /** A store that was offered just the path to `k` has `k` as its tip. */
  lemma PathMakesTip(cr: Crypto, c: Chain, k: H256, o: set<Block>, c1: Chain, o1: set<Block>)
    requires Inv(cr, c) && StoredOnly(cr, c, o) && CollisionFree(cr, o) && k in c.blocks
    requires Inv(cr, c1) && Faithful(cr, c1, o1) && o1 == Elements(PathBlocks(cr, c, k)) && o1 <= o
    ensures c1.tip == k && c1.heights[k] == c.heights[k]
  {
    StoredIsClosed(cr, c1, o1);
    PathReaches(cr, c, k, o1, c1.blocks.Keys);
    SameHeight(cr, c, c1, o, k);
    var t := c1.tip;
    if t == Root(cr) {
      assert k != Root(cr) ==> Linked(cr, c, k);
    } else {
      assert Linked(cr, c1, t);
      OnPath(cr, c, k, c1.blocks[t]);
      SameHeight(cr, c, c1, o, t);
    }
  }

  lemma {:induction false} OfferedConcat(a: seq<seq<Block>>, b: seq<seq<Block>>)
    ensures Offered(a + b) == Offered(a) + Offered(b)
  {
    if b == [] {
      assert a + b == a;
    } else {
      assert (a + b)[..|a + b| - 1] == a + b[..|b| - 1];
      OfferedConcat(a, b[..|b| - 1]);
    }
  }

  /** Some order and grouping of the same blocks makes `k` the tip. */
  ghost predicate CanBeTip(cr: Crypto, msgs: seq<seq<Block>>, k: H256) {
    exists other :: Offered(other) == Offered(msgs) && StoreAfter(cr, other).tip == k
  }

  ghost predicate Highest(c: Chain, k: H256) {
    k in c.heights && c.tip in c.heights && c.heights[k] == c.heights[c.tip]
  }

  /** Its path first, and then everything: that makes a highest block the tip. */
  lemma {:induction false} PathFirst(cr: Crypto, msgs: seq<seq<Block>>, k: H256) returns (other: seq<seq<Block>>)
    requires CollisionFree(cr, Offered(msgs)) && Highest(StoreAfter(cr, msgs), k)
    ensures Offered(other) == Offered(msgs) && StoreAfter(cr, other).tip == k
  {
    var c, o := StoreAfter(cr, msgs), Offered(msgs);
    StoreFaithful(cr, msgs);
    var path := PathBlocks(cr, c, k);
    var first := [path];
    PathOffered(cr, c, k, o);
    assert first[..0] == [];
    assert Offered(first) == Elements(path);
    StoreFaithful(cr, first);
    PathMakesTip(cr, c, k, o, StoreAfter(cr, first), Offered(first));
    other := first + msgs;
    OfferedConcat(first, msgs);
    assert Offered(other) == o;
    OrderIndependence(cr, msgs, other);
    TipStaysIff(cr, first, msgs);
  }

  lemma PathOffered(cr: Crypto, c: Chain, k: H256, o: set<Block>)
    requires Tree(cr, c) && StoredOnly(cr, c, o) && k in c.blocks
    ensures Elements(PathBlocks(cr, c, k)) <= o
  {
    forall b | b in PathBlocks(cr, c, k) ensures b in o {
      OnPath(cr, c, k, b);
    }
  }

  /** Without collisions, the blocks that can be the tip, over all orders and groupings of the same blocks, are
      exactly the highest ones. */
  lemma {:induction false} TipsAreTheHighest(cr: Crypto, msgs: seq<seq<Block>>, k: H256)
    requires CollisionFree(cr, Offered(msgs))
    ensures CanBeTip(cr, msgs, k) <==> Highest(StoreAfter(cr, msgs), k)
  {
    if Highest(StoreAfter(cr, msgs), k) {
      var other := PathFirst(cr, msgs, k);
    }
    if CanBeTip(cr, msgs, k) {
      var other :| Offered(other) == Offered(msgs) && StoreAfter(cr, other).tip == k;
      OrderIndependence(cr, msgs, other);
    }
  }

  /** So the tip is independent of the order if and only if one block alone is highest. */
  lemma {:induction false} TipIndependentIff(cr: Crypto, msgs: seq<seq<Block>>)
    requires CollisionFree(cr, Offered(msgs))
    ensures var c := StoreAfter(cr, msgs);
      (forall k :: CanBeTip(cr, msgs, k) ==> k == c.tip) <==> (forall k :: Highest(c, k) ==> k == c.tip)
  {
    forall k ensures CanBeTip(cr, msgs, k) <==> Highest(StoreAfter(cr, msgs), k) {
      TipsAreTheHighest(cr, msgs, k);
    }
  }
}
