/** The messages of src/network/message.rs, and what a node does on receiving one of the three about blocks
    (src/network/worker.rs:68-124), as functions from the store to the new store and the messages sent. */
module Gossip {
  import opened Hash
  import opened Blocks
  import opened Chains
  import opened Cascades

  datatype Message =
    | NewBlockHashes(hashes: seq<H256>)
    | GetBlocks(hashes: seq<H256>)
    | Blocks(blocks: seq<Block>)
    | NewTransactionHashes(hashes: seq<H256>)
    | GetTransactions(hashes: seq<H256>)
    | Transactions(transactions: seq<SignedTransaction>)
    | Ping(text: string)
    | Pong(text: string)

  predicate AboutBlocks(msg: Message) {
    msg.NewBlockHashes? || msg.GetBlocks? || msg.Blocks?
  }

  /** The new store, what is written back to the sender, and what is broadcast. */
  datatype Effects = Effects(chain: Chain, replies: seq<Message>, broadcasts: seq<Message>)

  function Missing(c: Chain, hs: seq<H256>): seq<H256> {
    if hs == [] then []
    else Missing(c, hs[..|hs| - 1]) + if Contains(c, hs[|hs| - 1]) then [] else [hs[|hs| - 1]]
  }

  function Stored(c: Chain, hs: seq<H256>): seq<Block> {
    if hs == [] then []
    else Stored(c, hs[..|hs| - 1]) + if Contains(c, hs[|hs| - 1]) then [c.blocks[hs[|hs| - 1]]] else []
  }

  function OnNewBlockHashes(c: Chain, hs: seq<H256>): Effects {
    Effects(c, if Missing(c, hs) == [] then [] else [GetBlocks(Missing(c, hs))], [])
  }

  function OnGetBlocks(c: Chain, hs: seq<H256>): Effects {
    Effects(c, if Stored(c, hs) == [] then [] else [Blocks(Stored(c, hs))], [])
  }

  /** The state of the loop over the blocks of one message. */
  datatype Batch = Batch(chain: Chain, relay: seq<H256>, missing: seq<H256>, sent: seq<Message>)

  ghost function ReceiveOne(cr: Crypto, t: Batch, b: Block): Batch
    requires Ready(t.chain)
  {
    if Contains(t.chain, BlockHash(cr, b)) || !PowValid(cr, t.chain, b) then t
    else if !ParentStored(t.chain, b) then
      t.(chain := AddOrphan(t.chain, b), missing := t.missing + [b.header.parent])
    else
      var r := Cascade(cr, t.chain, [b], t.relay);
      t.(chain := r.chain, relay := r.out, sent := t.sent + [Transactions(b.content.transactions)])
  }

  lemma ReceiveOneReady(cr: Crypto, t: Batch, b: Block)
    requires Ready(t.chain)
    ensures Ready(ReceiveOne(cr, t, b).chain)
  {
    if ParentStored(t.chain, b) {
      CascadeGrows(cr, t.chain, [b], t.relay);
    }
  }

  ghost function ReceiveAll(cr: Crypto, c: Chain, bs: seq<Block>): (t: Batch)
    requires Ready(c)
    ensures Ready(t.chain)
  {
    if bs == [] then Batch(c, [], [], [])
    else
      var before := ReceiveAll(cr, c, bs[..|bs| - 1]);
      ReceiveOneReady(cr, before, bs[|bs| - 1]);
      ReceiveOne(cr, before, bs[|bs| - 1])
  }

  ghost function OnBlocks(cr: Crypto, c: Chain, bs: seq<Block>): Effects
    requires Ready(c)
  {
    var t := ReceiveAll(cr, c, bs);
    Effects(t.chain,
            t.sent + (if t.missing == [] then [] else [GetBlocks(t.missing)]),
            if t.relay == [] then [] else [NewBlockHashes(t.relay)])
  }

  // ----- Requests and answers

  lemma {:induction false} MissingExactly(c: Chain, hs: seq<H256>)
    ensures forall h :: h in Missing(c, hs) <==> h in hs && !Contains(c, h)
  {
    if hs == [] {
    } else {
      MissingExactly(c, hs[..|hs| - 1]);
      assert hs == hs[..|hs| - 1] + [hs[|hs| - 1]];
    }
  }

  lemma {:induction false} StoredExactly(c: Chain, hs: seq<H256>)
    ensures forall b :: b in Stored(c, hs) <==> exists h :: h in hs && Contains(c, h) && c.blocks[h] == b
    ensures (forall h :: h in hs ==> Contains(c, h)) ==>
      |Stored(c, hs)| == |hs| && forall i :: 0 <= i < |hs| ==> Contains(c, hs[i]) && Stored(c, hs)[i] == c.blocks[hs[i]]
  {
    if hs == [] {
    } else {
      StoredExactly(c, hs[..|hs| - 1]);
      assert hs == hs[..|hs| - 1] + [hs[|hs| - 1]];
    }
  }

  // ----- What one message of blocks does

  lemma ReceiveOneInv(cr: Crypto, t: Batch, b: Block)
    requires Inv(cr, t.chain)
    ensures Ready(t.chain) && Inv(cr, ReceiveOne(cr, t, b).chain)
    ensures Grows(t.chain, ReceiveOne(cr, t, b).chain)
  {
    InvReady(cr, t.chain);
    if Contains(t.chain, BlockHash(cr, b)) || !PowValid(cr, t.chain, b) {
      assert ReceiveOne(cr, t, b) == t;
    } else {
      if ParentStored(t.chain, b) {
        CascadeInv(cr, t.chain, [b], t.relay);
        CascadeGrows(cr, t.chain, [b], t.relay);
      } else {
        AddOrphanInv(cr, t.chain, b);
      }
    }
  }

  lemma {:induction false} ReceiveAllInv(cr: Crypto, c: Chain, bs: seq<Block>)
    requires Inv(cr, c)
    ensures Ready(c)
    ensures var t := ReceiveAll(cr, c, bs); Inv(cr, t.chain) && Grows(c, t.chain)
  {
    InvReady(cr, c);
    if bs == [] {
    } else {
      var before := ReceiveAll(cr, c, bs[..|bs| - 1]);
      ReceiveAllInv(cr, c, bs[..|bs| - 1]);
      ReceiveOneInv(cr, before, bs[|bs| - 1]);
      GrowsTransitive(c, before.chain, ReceiveAll(cr, c, bs).chain);
    }
  }

  /** Dealt with, and asked for if it is still waiting. */
  predicate Handled(cr: Crypto, t: Batch, x: Block) {
    Contains(t.chain, BlockHash(cr, x)) || (Waiting(t.chain, x) && x.header.parent in t.missing)
  }

  lemma ReceiveOneSettles(cr: Crypto, t: Batch, b: Block, x: Block)
    requires Ready(t.chain)
    ensures var t' := ReceiveOne(cr, t, b);
      && (Settled(cr, t.chain, x) ==> Settled(cr, t'.chain, x))
      && (Handled(cr, t, x) || (x == b && PowValid(cr, t.chain, b)) ==> Handled(cr, t', x))
  {
    if ParentStored(t.chain, b) {
      CascadeGrows(cr, t.chain, [b], t.relay);
      if Settled(cr, t.chain, x) || x == b {
        CascadeSettles(cr, t.chain, [b], t.relay, x);
      }
    }
  }

  /** No valid block is lost: every one that was waiting or has arrived is stored or waits, and what waits
      out of this message has been asked for. */
  lemma {:induction false} ReceiveAllSettles(cr: Crypto, c: Chain, bs: seq<Block>, x: Block)
    requires Inv(cr, c)
    ensures Ready(c)
    ensures var t := ReceiveAll(cr, c, bs);
      && (Settled(cr, c, x) ==> Settled(cr, t.chain, x))
      && (x in bs && PowValid(cr, c, x) ==> Handled(cr, t, x))
  {
    InvReady(cr, c);
    if bs == [] {
    } else {
      var init, b := bs[..|bs| - 1], bs[|bs| - 1];
      ReceiveAllInv(cr, c, init);
      ReceiveAllSettles(cr, c, init, x);
      ReceiveOneSettles(cr, ReceiveAll(cr, c, init), b, x);
      assert x in bs ==> x in init || x == b;
    }
  }

  lemma ReceiveOneOrigin(cr: Crypto, t: Batch, b: Block, x: Block)
    requires Ready(t.chain)
    ensures var t' := ReceiveOne(cr, t, b);
      Waiting(t'.chain, x) ==>
        Waiting(t.chain, x) || (x == b && !ParentStored(t.chain, b) && !Contains(t.chain, BlockHash(cr, b)))
  {
    if ParentStored(t.chain, b) {
      CascadeGrows(cr, t.chain, [b], t.relay);
    }
  }

  /** No block is invented: what waits was waiting or has arrived. */
  lemma {:induction false} ReceiveAllOrigin(cr: Crypto, c: Chain, bs: seq<Block>, x: Block)
    requires Inv(cr, c)
    ensures Ready(c)
    ensures Waiting(ReceiveAll(cr, c, bs).chain, x) ==> Waiting(c, x) || (x in bs && !Contains(c, BlockHash(cr, x)))
  {
    InvReady(cr, c);
    if bs == [] {
    } else {
      var init, b := bs[..|bs| - 1], bs[|bs| - 1];
      ReceiveAllInv(cr, c, init);
      ReceiveAllOrigin(cr, c, init, x);
      ReceiveOneOrigin(cr, ReceiveAll(cr, c, init), b, x);
    }
  }

  lemma ReceiveOneStores(cr: Crypto, t: Batch, b: Block, k: H256)
    requires Ready(t.chain)
    ensures var c' := ReceiveOne(cr, t, b).chain;
      k in c'.blocks && k !in t.chain.blocks ==> c'.blocks[k] == b || Waiting(t.chain, c'.blocks[k])
  {
    if k in ReceiveOne(cr, t, b).chain.blocks && k !in t.chain.blocks {
      CascadeOrigin(cr, t.chain, [b], t.relay, k);
    }
  }

  /** What is newly stored was waiting or has arrived. */
  lemma {:induction false} ReceiveAllStores(cr: Crypto, c: Chain, bs: seq<Block>, k: H256)
    requires Inv(cr, c)
    ensures Ready(c)
    ensures var c' := ReceiveAll(cr, c, bs).chain;
      k in c'.blocks && k !in c.blocks ==> c'.blocks[k] in bs || Waiting(c, c'.blocks[k])
  {
    InvReady(cr, c);
    if bs == [] {
    } else {
      var init, b := bs[..|bs| - 1], bs[|bs| - 1];
      var t := ReceiveAll(cr, c, init);
      var t' := ReceiveOne(cr, t, b);
      ReceiveAllInv(cr, c, init);
      ReceiveOneInv(cr, t, b);
      ReceiveOneStores(cr, t, b, k);
      ReceiveAllStores(cr, c, init, k);
      if k in t'.chain.blocks && k !in t.chain.blocks {
        ReceiveAllOrigin(cr, c, init, t'.chain.blocks[k]);
      }
    }
  }

  /** The hashes to relay are exactly those newly stored. */
  lemma {:induction false} ReceiveAllRelays(cr: Crypto, c: Chain, bs: seq<Block>)
    requires Inv(cr, c)
    ensures Ready(c)
    ensures var t := ReceiveAll(cr, c, bs);
      forall k :: k in t.relay <==> k in t.chain.blocks && k !in c.blocks
  {
    InvReady(cr, c);
    if bs == [] {
    } else {
      var init, b := bs[..|bs| - 1], bs[|bs| - 1];
      var t := ReceiveAll(cr, c, init);
      ReceiveAllInv(cr, c, init);
      ReceiveAllRelays(cr, c, init);
      if ParentStored(t.chain, b) {
        RelayStep(cr, c, t, b);
      }
    }
  }

  lemma {:induction false} RelayStep(cr: Crypto, c: Chain, t: Batch, b: Block)
    requires Inv(cr, t.chain) && ParentStored(t.chain, b) && Grows(c, t.chain)
    requires forall k :: k in t.relay <==> k in t.chain.blocks && k !in c.blocks
    ensures Ready(t.chain)
    ensures var r := Cascade(cr, t.chain, [b], t.relay);
      forall k :: k in r.out <==> k in r.chain.blocks && k !in c.blocks
  {
    InvReady(cr, t.chain);
    var r := Cascade(cr, t.chain, [b], t.relay);
    var born := CascadeBirths(cr, t.chain, [b], t.relay, r);
    forall k ensures k in born <==> k in r.chain.blocks && k !in t.chain.blocks {
      BornIffNew(t.chain.blocks, r.chain.blocks, born, k);
    }
  }

  lemma ReceiveOneSent(cr: Crypto, t: Batch, b: Block)
    requires Inv(cr, t.chain)
    ensures Ready(t.chain)
    ensures var t' := ReceiveOne(cr, t, b);
      (t.relay != [] || t'.sent != t.sent ==> t'.relay != [])
  {
    InvReady(cr, t.chain);
    if ParentStored(t.chain, b) {
      var r := Cascade(cr, t.chain, [b], t.relay);
      var born := CascadeBirths(cr, t.chain, [b], t.relay, r);
      CascadeSettles(cr, t.chain, [b], t.relay, b);
    }
  }

  /** Transactions are sent back only by a message that newly stored something. */
  lemma {:induction false} SentMeansRelayed(cr: Crypto, c: Chain, bs: seq<Block>)
    requires Inv(cr, c)
    ensures Ready(c)
    ensures ReceiveAll(cr, c, bs).sent != [] ==> ReceiveAll(cr, c, bs).relay != []
  {
    InvReady(cr, c);
    if bs == [] {
    } else {
      var init := bs[..|bs| - 1];
      ReceiveAllInv(cr, c, init);
      SentMeansRelayed(cr, c, init);
      ReceiveOneSent(cr, ReceiveAll(cr, c, init), bs[|bs| - 1]);
    }
  }

  lemma ReceiveOneMissing(cr: Crypto, t: Batch, b: Block, m: H256)
    requires Ready(t.chain)
    ensures m in ReceiveOne(cr, t, b).missing ==>
      m in t.missing || (m == b.header.parent && !Contains(t.chain, BlockHash(cr, b)))
  {
  }

  /** Every hash asked for is the parent of a block that has arrived and was not stored. */
  lemma {:induction false} ReceiveAllMissing(cr: Crypto, c: Chain, bs: seq<Block>, m: H256) returns (i: nat)
    requires Inv(cr, c)
    ensures Ready(c)
    ensures m in ReceiveAll(cr, c, bs).missing ==>
      i < |bs| && bs[i].header.parent == m && !Contains(c, BlockHash(cr, bs[i]))
  {
    InvReady(cr, c);
    i := 0;
    if bs == [] {
    } else {
      var init := bs[..|bs| - 1];
      var t := ReceiveAll(cr, c, init);
      ReceiveAllInv(cr, c, init);
      ReceiveOneMissing(cr, t, bs[|bs| - 1], m);
      i := ReceiveAllMissing(cr, c, init, m);
      if m !in t.missing {
        i := |bs| - 1;
      }
    }
  }

  lemma {:induction false} ReceiveAllSends(cr: Crypto, c: Chain, bs: seq<Block>)
    requires Ready(c)
    ensures forall m :: m in ReceiveAll(cr, c, bs).sent ==> m.Transactions?
  {
    if bs == [] {
    } else {
      ReceiveAllSends(cr, c, bs[..|bs| - 1]);
    }
  }

  /** The sender gets transactions back, and one request for everything missing if anything is. */
  lemma OnBlocksReplies(cr: Crypto, c: Chain, bs: seq<Block>)
    requires Ready(c)
    ensures var missing, replies := ReceiveAll(cr, c, bs).missing, OnBlocks(cr, c, bs).replies;
      && (forall m :: m in replies ==> m.Transactions? || m == GetBlocks(missing))
      && (missing != [] ==> GetBlocks(missing) in replies)
  {
    ReceiveAllSends(cr, c, bs);
  }
}
