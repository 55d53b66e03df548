/** One mining attempt (src/miner.rs:161-197). It holds the locks of the store and of the pool from beginning
    to end, so it is one step. */
module Miner {
  import opened Hash
  import opened Blocks
  import opened BlockStore
  import opened Cascades
  import opened Gossip
  import opened Ledger
  import opened Merkle
  import opened Mining
  import opened Network
  import opened Options
  import opened Sequences

  /** The pool of transactions that wait to be mined (src/mempool.rs). */
  class Mempool {
    var hashToTransaction: map<H256, SignedTransaction>

    constructor ()
      ensures hashToTransaction == map[]
    {
      hashToTransaction := map[];
    }

    /** Takes any one transaction out. */
    method Pop() returns (taken: Option<H256>, transaction: Option<SignedTransaction>)
      modifies this
      ensures taken.None? <==> old(hashToTransaction) == map[]
      ensures taken.None? ==> transaction.None? && hashToTransaction == old(hashToTransaction)
      ensures taken.Some? ==>
        && taken.value in old(hashToTransaction) && transaction == Some(old(hashToTransaction)[taken.value])
        && hashToTransaction == old(hashToTransaction) - {taken.value}
    {
      taken, transaction := None, None;
      if hashToTransaction.Keys != {} {
        var hash :| hash in hashToTransaction;
        taken, transaction := Some(hash), Some(hashToTransaction[hash]);
        hashToTransaction := hashToTransaction - {hash};
      }
    }
  }

  /** The transaction without inputs and outputs that every mined block begins with. */
  function DefaultTransaction(): SignedTransaction {
    SignedTransaction(Transaction([], []), [], [])
  }

  /** Executing it changes nothing. */
  lemma DefaultDoesNothing(cr: Crypto, s: State)
    ensures DefaultTransaction().raw.inputs == [] && DefaultTransaction().raw.outputs == []
    ensures DefaultTransaction().pubKey == [] && DefaultTransaction().signature == []
    ensures ApplyTx(cr, s, DefaultTransaction()) == s
  {
  }

  const BLOCK_LIMIT := 20

  /** `content` is the default transaction followed by those that `pool` names by the hashes `taken`. */
  ghost predicate Filled(pool: map<H256, SignedTransaction>, taken: seq<H256>, content: seq<SignedTransaction>) {
    && |content| == |taken| + 1 && content[0] == DefaultTransaction()
    && Distinct(taken) && forall i :: 0 <= i < |taken| ==> taken[i] in pool && content[i + 1] == pool[taken[i]]
  }

  ghost function Without(pool: map<H256, SignedTransaction>, taken: seq<H256>): map<H256, SignedTransaction> {
    map h | h in pool && h !in taken :: pool[h]
  }

  class Context {
    const blockchain: Blockchain
    const mempool: Mempool
    const hashChildren: (H256, H256) -> H256
    const hashSigned: SignedTransaction -> H256
    var totalBlocksMined: nat

    constructor (blockchain: Blockchain, mempool: Mempool, hashChildren: (H256, H256) -> H256,
            hashSigned: SignedTransaction -> H256)
      ensures this.blockchain == blockchain && this.mempool == mempool && totalBlocksMined == 0
      ensures this.hashChildren == hashChildren && this.hashSigned == hashSigned
    {
      this.blockchain, this.mempool, this.hashChildren, this.hashSigned :=
        blockchain, mempool, hashChildren, hashSigned;
      totalBlocksMined := 0;
    }

    /** Fills a block up to the limit, or until the pool is empty. What is taken leaves the pool for good. */
    method Fill() returns (transactions: seq<SignedTransaction>, ghost taken: seq<H256>)
      modifies mempool
      ensures Filled(old(mempool.hashToTransaction), taken, transactions)
      ensures mempool.hashToTransaction == Without(old(mempool.hashToTransaction), taken)
      ensures |transactions| == 20 || (|transactions| < 20 && mempool.hashToTransaction == map[])
    {
      transactions := [DefaultTransaction()];
      taken := [];
      while |transactions| < BLOCK_LIMIT
        invariant |transactions| <= BLOCK_LIMIT
        invariant Filled(old(mempool.hashToTransaction), taken, transactions)
        invariant mempool.hashToTransaction == Without(old(mempool.hashToTransaction), taken)
      {
        var hash, trans := mempool.Pop();
        if trans.Some? {
          transactions := transactions + [trans.value];
          taken := taken + [hash.value];
        } else {
          break;
        }
      }
    }

    /** Attempts one block on the tip: inserts, counts and announces it if its hash is low enough. Its Merkle
        root is that of the default transaction alone, whatever is taken from the pool afterwards, and the
        pool loses what was taken even if the attempt fails. */
    method MineOnce(nonce: nat, timestamp: nat)
      returns (transactions: seq<SignedTransaction>, ghost taken: seq<H256>, broadcasts: seq<Message>)
      requires Ready(blockchain.View())
      modifies this, blockchain, mempool
      ensures Filled(old(mempool.hashToTransaction), taken, transactions)
      ensures mempool.hashToTransaction == Without(old(mempool.hashToTransaction), taken)
      ensures |transactions| == 20 || (|transactions| < 20 && mempool.hashToTransaction == map[])
      ensures var before := old(blockchain.View());
        var block := Candidate(before, Attempt(nonce, timestamp, hashSigned(DefaultTransaction()), transactions));
        && Effects(blockchain.View(), [], broadcasts) == OnMine(blockchain.cr, before, block)
        && totalBlocksMined == old(totalBlocksMined) + if Mined(blockchain.cr, block) then 1 else 0
      ensures var before := old(blockchain.View());
        Sound(blockchain.cr, before) ==>
          var attempt := Attempt(nonce, timestamp, hashSigned(DefaultTransaction()), transactions);
          Extends(blockchain.cr, before, blockchain.View(), OnTip(before, attempt), broadcasts)
    {
      var parent := blockchain.tip;
      var difficulty := blockchain.hashToBlock[parent].header.difficulty;
      var tree := New(hashChildren, hashSigned, [DefaultTransaction()]);
      var header := Header(parent, nonce, difficulty, timestamp, tree.Root());
      transactions, taken := Fill();
      var block := Block(header, Content(transactions));
      broadcasts := [];
      if Leq(BlockHash(blockchain.cr, block), difficulty) {
        blockchain.Insert(block);
        totalBlocksMined := totalBlocksMined + 1;
        broadcasts := [NewBlockHashes([BlockHash(blockchain.cr, block)])];
      }
      if Sound(blockchain.cr, old(blockchain.View())) {
        var attempt := Attempt(nonce, timestamp, header.merkleRoot, transactions);
        MinedExtendsTip(blockchain.cr, old(blockchain.View()), attempt);
      }
    }
  }
}
