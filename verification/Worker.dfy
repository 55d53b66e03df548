/** The three block arms of the worker (src/network/worker.rs:68-124), which change the shared store and
    write messages: they do what `Gossip` says a node does. */
module Worker {
  import opened Hash
  import opened Blocks
  import opened BlockStore
  import Chains
  import opened Cascades
  import opened Gossip
  import Network

  lemma ReceiveNext(cr: Crypto, c: Chains.Chain, bs: seq<Block>, i: nat)
    requires Ready(c) && i < |bs|
    ensures ReceiveAll(cr, c, bs[..i + 1]) == ReceiveOne(cr, ReceiveAll(cr, c, bs[..i]), bs[i])
  {
    assert bs[..i + 1][..i] == bs[..i];
  }

  class Context {
    const blockchain: Blockchain

    constructor (blockchain: Blockchain)
      ensures this.blockchain == blockchain
    {
      this.blockchain := blockchain;
    }

    /** Asks back for the announced blocks that are not stored. */
    method HandleNewBlockHashes(hashes: seq<H256>) returns (replies: seq<Message>)
      ensures Effects(blockchain.View(), replies, []) == OnNewBlockHashes(blockchain.View(), hashes)
    {
      var missingHashes := [];
      for i := 0 to |hashes|
        invariant missingHashes == Missing(blockchain.View(), hashes[..i])
      {
        assert hashes[..i + 1][..i] == hashes[..i];
        var known := blockchain.ContainsBlock(hashes[i]);
        if !known {
          missingHashes := missingHashes + [hashes[i]];
        }
      }
      assert hashes[..|hashes|] == hashes;
      replies := if missingHashes != [] then [GetBlocks(missingHashes)] else [];
    }

    /** Ships those of the requested blocks that are stored. */
    method HandleGetBlocks(hashes: seq<H256>) returns (replies: seq<Message>)
      ensures Effects(blockchain.View(), replies, []) == OnGetBlocks(blockchain.View(), hashes)
    {
      var blocks := [];
      for i := 0 to |hashes|
        invariant blocks == Stored(blockchain.View(), hashes[..i])
      {
        assert hashes[..i + 1][..i] == hashes[..i];
        var known := blockchain.ContainsBlock(hashes[i]);
        if known {
          blocks := blocks + [blockchain.hashToBlock[hashes[i]]];
        }
      }
      assert hashes[..|hashes|] == hashes;
      replies := if blocks != [] then [Message.Blocks(blocks)] else [];
    }

    /** One round of the loop over the blocks of a message; each `return` is the source's `continue`. */
    method ReceiveBlock(block: Block, relayHashes: seq<H256>, missingHashes: seq<H256>, written: seq<Message>)
      returns (relay: seq<H256>, missing: seq<H256>, sent: seq<Message>)
      requires Ready(blockchain.View())
      modifies blockchain
      ensures Batch(blockchain.View(), relay, missing, sent) ==
        ReceiveOne(blockchain.cr, Batch(old(blockchain.View()), relayHashes, missingHashes, written), block)
    {
      relay, missing, sent := relayHashes, missingHashes, written;
      var known := blockchain.ContainsBlock(BlockHash(blockchain.cr, block));
      if known {
        return;
      }
      var valid := blockchain.PowValidityCheck(block);
      if !valid {
        return;
      }
      var parentStored := blockchain.ParentCheck(block);
      if !parentStored {
        blockchain.AddToOrphanBuffer(block);
        missing := missing + [block.header.parent];
        return;
      }
      sent := sent + [Transactions(block.content.transactions)];
      relay := blockchain.InsertRecursively(block, relay);
    }

    /** Takes in the blocks in order, then asks for missing parents and announces what it has stored. */
    method HandleBlocks(blocks: seq<Block>) returns (replies: seq<Message>, broadcasts: seq<Message>)
      requires Ready(blockchain.View())
      modifies blockchain
      ensures Effects(blockchain.View(), replies, broadcasts) == OnBlocks(blockchain.cr, old(blockchain.View()), blocks)
    {
      var relayHashes, missingHashes, sent := [], [], [];
      for i := 0 to |blocks|
        invariant Ready(blockchain.View())
        invariant Batch(blockchain.View(), relayHashes, missingHashes, sent) ==
          ReceiveAll(blockchain.cr, old(blockchain.View()), blocks[..i])
      {
        ReceiveNext(blockchain.cr, old(blockchain.View()), blocks, i);
        relayHashes, missingHashes, sent := ReceiveBlock(blocks[i], relayHashes, missingHashes, sent);
      }
      assert blocks[..|blocks|] == blocks;
      replies := sent + if missingHashes != [] then [GetBlocks(missingHashes)] else [];
      broadcasts := if relayHashes != [] then [NewBlockHashes(relayHashes)] else [];
    }

    /** What one message does to the store and, if it is about blocks, what it makes the node write. */
    method Handle(msg: Message) returns (replies: seq<Message>, broadcasts: seq<Message>)
      requires Ready(blockchain.View())
      modifies blockchain
      ensures Effects(blockchain.View(), replies, broadcasts) ==
        Network.React(blockchain.cr, old(blockchain.View()), msg)
    {
      replies, broadcasts := [], [];
      match msg
      case NewBlockHashes(hashes) => replies := HandleNewBlockHashes(hashes);
      case GetBlocks(hashes) => replies := HandleGetBlocks(hashes);
      case Blocks(blocks) => replies, broadcasts := HandleBlocks(blocks);
      case _ =>
    }
  }
}
