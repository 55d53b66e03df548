/** The block store as an object (src/blockchain.rs): its methods do to the fields what the functions of
    `Chains` and `Cascades` do to the value they stand for. */
module BlockStore {
  import opened Hash
  import opened Blocks
  import opened Ledger
  import opened Sequences
  import C = Chains
  import opened Cascades
  import opened Paths

  class Blockchain {
    const cr: Crypto
    var hashToBlock: map<H256, Block>
    var hashToHeight: map<H256, nat>
    var tip: H256
    var difficulty: H256
    var orphanBuffer: map<H256, seq<Block>>
    var hashToState: map<H256, State>

    ghost function View(): C.Chain
      reads this
    {
      C.Chain(hashToBlock, hashToHeight, tip, difficulty, orphanBuffer, hashToState)
    }

    /** Only the genesis block, with its twelve coins. */
    constructor (cr: Crypto)
      ensures this.cr == cr && View() == C.New(cr)
    {
      this.cr := cr;
      var genesisHash := BlockHash(cr, Genesis());
      hashToBlock := map[genesisHash := Genesis()];
      hashToHeight := map[genesisHash := 0];
      var state: State := map[];
      var count := 1;
      while count < 13
        invariant 1 <= count <= 13 && state == C.Coins(cr, count)
      {
        var owner := cr.owner(count % 3);
        state := state[TransactionInput(count, C.CoinHash()) := TransactionOutput(owner, Repeated(10))];
        count := count + 1;
      }
      tip := genesisHash;
      difficulty := Genesis().header.difficulty;
      orphanBuffer := map[];
      hashToState := map[genesisHash := state];
    }

    /** Inserts a block below a stored parent, and (repaired) keeps the state after it. */
    method Insert(block: Block)
      requires C.CanInsert(View(), block)
      modifies this
      ensures View() == C.Insert(cr, old(View()), block)
    {
      var parentHash := block.header.parent;
      var height := hashToHeight[parentHash] + 1;
      var blockHash := BlockHash(cr, block);
      hashToBlock := hashToBlock[blockHash := block];
      hashToHeight := hashToHeight[blockHash := height];
      if height > hashToHeight[tip] {
        tip := blockHash;
      }
      var state := ProcessAllTransactions(block, hashToState[parentHash]);
      hashToState := hashToState[blockHash := state];
    }

    /** Walks from the tip to genesis and turns the walk around. */
    method AllBlocksInLongestChain() returns (hashes: seq<H256>)
      requires C.Tree(cr, View())
      ensures hashes == LongestChain(cr, View())
    {
      var currHash := tip;
      var hashesBackward := [currHash];
      assert hashesBackward[..0] == [];
      while hashToHeight[currHash] > 0
        invariant currHash in hashToBlock && hashesBackward != [] && hashesBackward[|hashesBackward| - 1] == currHash
        invariant PathTo(cr, View(), currHash) + Reversed(hashesBackward[..|hashesBackward| - 1])
          == LongestChain(cr, View())
        decreases hashToHeight[currHash]
      {
        assert C.Linked(cr, View(), currHash);
        ghost var walked := hashesBackward;
        ghost var below := walked[..|walked| - 1];
        currHash := hashToBlock[currHash].header.parent;
        hashesBackward := hashesBackward + [currHash];
        assert hashesBackward[..|walked|] == walked;
        assert Reversed(walked) == [walked[|walked| - 1]] + Reversed(below);
      }
      hashes := Reversed(hashesBackward);
    }

    method ContainsBlock(hash: H256) returns (r: bool)
      ensures r <==> C.Contains(View(), hash)
    {
      r := hash in hashToBlock;
    }

    method PowValidityCheck(block: Block) returns (r: bool)
      ensures r <==> C.PowValid(cr, View(), block)
      ensures r <==>
        Value(BlockHash(cr, block)) <= Value(block.header.difficulty) && block.header.difficulty == difficulty
    {
      LeqIsNumeric(BlockHash(cr, block), block.header.difficulty);
      r := Leq(BlockHash(cr, block), block.header.difficulty) && block.header.difficulty == difficulty;
    }

    method ParentCheck(block: Block) returns (r: bool)
      ensures r <==> C.ParentStored(View(), block)
    {
      r := ContainsBlock(block.header.parent);
    }

    method AddToOrphanBuffer(block: Block)
      modifies this
      ensures View() == C.AddOrphan(old(View()), block)
    {
      var parent := block.header.parent;
      if parent !in orphanBuffer {
        orphanBuffer := orphanBuffer[parent := []];
      }
      orphanBuffer := orphanBuffer[parent := orphanBuffer[parent] + [block]];
    }

    /** Inserts a block and, through itself, every block that was waiting for it. */
    method InsertRecursively(block: Block, outHashes: seq<H256>) returns (out: seq<H256>)
      requires Ready(View()) && C.ParentStored(View(), block)
      modifies this
      ensures Cascade(cr, old(View()), [block], outHashes) == Outcome(View(), out)
      ensures Ready(View()) && orphanBuffer.Keys <= old(orphanBuffer.Keys)
      decreases orphanBuffer.Keys, 0
    {
      out := outHashes;
      var hash := BlockHash(cr, block);
      ghost var before := View();
      var known := ContainsBlock(hash);
      if known {
        return;
      }
      NextReady(cr, before, [block]);
      Insert(block);
      out := out + [hash];
      if hash in orphanBuffer {
        var children := orphanBuffer[hash];
        orphanBuffer := orphanBuffer - {hash};
        assert View() == C.Adopt(cr, before, block);
        assert NextStack(cr, before, [block]) == children;
        out := InsertChildren(children, out);
      } else {
        assert orphanBuffer - {hash} == orphanBuffer;
        assert NextStack(cr, before, [block]) == [];
      }
    }

    /** The loop over the released children; the buffer has lost a key before it starts. */
    method InsertChildren(children: seq<Block>, outHashes: seq<H256>) returns (out: seq<H256>)
      requires Ready(View()) && AllParentsStored(View(), children)
      modifies this
      ensures Cascade(cr, old(View()), children, outHashes) == Outcome(View(), out)
      ensures Ready(View()) && orphanBuffer.Keys <= old(orphanBuffer.Keys)
      decreases orphanBuffer.Keys, 1
    {
      out := outHashes;
      for i := 0 to |children|
        invariant Ready(View()) && AllParentsStored(View(), children[i..])
        invariant orphanBuffer.Keys <= old(orphanBuffer.Keys)
        invariant Cascade(cr, View(), children[i..], out) == Cascade(cr, old(View()), children, outHashes)
      {
        assert children[i..] == [children[i]] + children[i + 1..];
        CascadeConcat(cr, View(), [children[i]], children[i + 1..], out);
        out := InsertRecursively(children[i], out);
      }
    }

    /** Removes the inputs from the state and adds the outputs under a wrapping counter. */
    method ProcessOneTransaction(transaction: SignedTransaction, s: State) returns (state: State)
      ensures state == ApplyTx(cr, s, transaction)
    {
      var tx := transaction.raw;
      state := s;
      for i := 0 to |tx.inputs|
        invariant state == RemoveInputs(s, tx.inputs[..i])
      {
        assert tx.inputs[..i + 1][..i] == tx.inputs[..i];
        state := state - {tx.inputs[i]};
      }
      assert tx.inputs[..|tx.inputs|] == tx.inputs;
      ghost var removed := state;
      var count := 0;
      for i := 0 to |tx.outputs|
        invariant count == i % U32
        invariant state == AddOutputs(removed, cr.tx(tx), tx.outputs[..i])
      {
        assert tx.outputs[..i + 1][..i] == tx.outputs[..i];
        state := state[TransactionInput(count, cr.tx(tx)) := tx.outputs[i]];
        count := (count + 1) % U32;
      }
      assert tx.outputs[..|tx.outputs|] == tx.outputs;
    }

    method ProcessAllTransactions(block: Block, s: State) returns (state: State)
      ensures state == ApplyAll(cr, s, block.content.transactions)
    {
      var transactions := block.content.transactions;
      state := s;
      for i := 0 to |transactions|
        invariant state == ApplyAll(cr, s, transactions[..i])
      {
        assert transactions[..i + 1][..i] == transactions[..i];
        state := ProcessOneTransaction(transactions[i], state);
      }
      assert transactions[..|transactions|] == transactions;
    }

    method GetState(hash: H256) returns (state: State)
      requires hash in hashToState
      ensures state == hashToState[hash]
      ensures C.Inv(cr, View()) ==> state == ApplyAll(cr, C.Coins(cr, 13), HistoryOf(cr, View(), hash))
    {
      state := hashToState[hash];
      if C.Inv(cr, View()) {
        StateIsReplay(cr, View(), hash);
      }
    }
  }
}
