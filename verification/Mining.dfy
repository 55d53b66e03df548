/** What successful attempts at mining build (src/miner.rs:164-195). */
module Mining {
  import opened Hash
  import opened Blocks
  import opened Bytes
  import opened Sequences
  import opened Ledger
  import opened Chains
  import opened Cascades
  import opened Paths
  import opened Gossip
  import opened Network

  /** The store is in order except perhaps for its buffer, which a plain insert neglects. */
  ghost predicate Sound(cr: Crypto, c: Chain) {
    Tree(cr, c) && Replayed(cr, c) && Ready(c)
  }

  lemma TipDifficulty(cr: Crypto, c: Chain)
    requires Tree(cr, c)
    ensures c.blocks[c.tip].header.difficulty == c.difficulty == DefaultDifficulty()
  {
    assert c.tip != Root(cr) ==> Linked(cr, c, c.tip);
  }

  /** A block on the tip with the default difficulty and all that was chosen. */
  function OnTip(c: Chain, a: Attempt): Block {
    Block(Header(c.tip, a.nonce, DefaultDifficulty(), a.timestamp, a.merkleRoot), Content(a.transactions))
  }

  lemma ExtendsTip(cr: Crypto, c: Chain, b: Block)
    requires Sound(cr, c) && Attachable(cr, c, b) && b.header.parent == c.tip
    ensures CanInsert(c, b) && Sound(cr, Insert(cr, c, b)) && Grows(c, Insert(cr, c, b))
    ensures var h, c' := BlockHash(cr, b), Insert(cr, c, b);
      && c'.tip == h && LongestChain(cr, c') == LongestChain(cr, c) + [h]
  {
    InsertTree(cr, c, b);
    InsertReplayed(cr, c, b);
    PathStable(cr, c, Insert(cr, c, b), c.tip);
  }

  /** The attempt to mine `b` succeeds if and only if its hash is at most 256^31 as a number. If the hash is
      new, the block then extends the longest chain by one, is executed on the state of the old tip, and is
      announced. If the attempt fails, nothing happens. */
  ghost predicate Extends(cr: Crypto, c: Chain, c': Chain, b: Block, broadcasts: seq<Message>)
    requires Sound(cr, c)
  {
    var h := BlockHash(cr, b);
    if Value(h) > Pow256(31) then c' == c && broadcasts == []
    else
      h !in c.blocks ==>
        && Sound(cr, c') && Grows(c, c')
        && c'.blocks == c.blocks[h := b] && c'.tip == h
        && LongestChain(cr, c') == LongestChain(cr, c) + [h]
        && c'.states[h] == ApplyAll(cr, c.states[c.tip], b.content.transactions)
        && broadcasts == [NewBlockHashes([h])]
  }

  lemma InsertExtends(cr: Crypto, c: Chain, b: Block)
    requires Sound(cr, c) && Attachable(cr, c, b) && b.header.parent == c.tip && Value(BlockHash(cr, b)) <= Pow256(31)
    ensures CanInsert(c, b) && Extends(cr, c, Insert(cr, c, b), b, [NewBlockHashes([BlockHash(cr, b)])])
  {
    ExtendsTip(cr, c, b);
    ExtendsBy(cr, c, Insert(cr, c, b), b);
  }

  lemma ExtendsBy(cr: Crypto, c: Chain, c': Chain, b: Block)
    requires Sound(cr, c) && Sound(cr, c') && Grows(c, c') && Value(BlockHash(cr, b)) <= Pow256(31)
    requires c'.blocks == c.blocks[BlockHash(cr, b) := b] && c'.tip == BlockHash(cr, b)
    requires LongestChain(cr, c') == LongestChain(cr, c) + [BlockHash(cr, b)]
    requires c'.states[BlockHash(cr, b)] == ApplyAll(cr, c.states[c.tip], b.content.transactions)
    ensures Extends(cr, c, c', b, [NewBlockHashes([BlockHash(cr, b)])])
  {
  }

  lemma MinedExtendsTip(cr: Crypto, c: Chain, a: Attempt)
    requires Sound(cr, c)
    ensures var eff := OnMine(cr, c, Candidate(c, a));
      Extends(cr, c, eff.chain, OnTip(c, a), eff.broadcasts) && eff.replies == []
  {
    CandidateIsOnTip(cr, c, a);
    var b := OnTip(c, a);
    if Mined(cr, b) && BlockHash(cr, b) !in c.blocks {
      InsertExtends(cr, c, b);
    }
  }

  lemma CandidateIsOnTip(cr: Crypto, c: Chain, a: Attempt)
    requires Tree(cr, c)
    ensures Candidate(c, a) == OnTip(c, a)
    ensures Mined(cr, OnTip(c, a)) <==> Value(BlockHash(cr, OnTip(c, a))) <= Pow256(31)
    ensures Mined(cr, OnTip(c, a)) ==> PowValid(cr, c, OnTip(c, a))
  {
    TipDifficulty(cr, c);
    DifficultyValue();
    LeqIsNumeric(BlockHash(cr, OnTip(c, a)), DefaultDifficulty());
  }

  // ----- A node that mines alone

  lemma OnMineReady(cr: Crypto, c: Chain, a: Attempt)
    requires Ready(c)
    ensures CanInsert(c, Candidate(c, a)) && Ready(OnMine(cr, c, Candidate(c, a)).chain)
  {
  }

  ghost function MineAll(cr: Crypto, c: Chain, tries: seq<Attempt>): (c': Chain)
    requires Ready(c)
    ensures Ready(c')
  {
    if tries == [] then c
    else
      var before, a := MineAll(cr, c, tries[..|tries| - 1]), tries[|tries| - 1];
      OnMineReady(cr, before, a);
      OnMine(cr, before, Candidate(before, a)).chain
  }

  /** The blocks that succeed, in order. */
  ghost function Successes(cr: Crypto, c: Chain, tries: seq<Attempt>): seq<Block>
    requires Ready(c)
  {
    if tries == [] then []
    else
      var init := tries[..|tries| - 1];
      var b := Candidate(MineAll(cr, c, init), tries[|tries| - 1]);
      Successes(cr, c, init) + if Mined(cr, b) then [b] else []
  }

  function TransactionsOf(bs: seq<Block>): seq<SignedTransaction> {
    if bs == [] then [] else TransactionsOf(bs[..|bs| - 1]) + bs[|bs| - 1].content.transactions
  }

  /** What `bs` has done to `c`: the longest chain goes on with their hashes, they and no others are stored,
      and the state of the tip has their transactions executed in order. */
  ghost predicate Extended(cr: Crypto, c: Chain, c': Chain, bs: seq<Block>)
    requires Sound(cr, c)
  {
    && Sound(cr, c') && Grows(c, c')
    && LongestChain(cr, c') == LongestChain(cr, c) + Hashes(cr, bs)
    && (forall k :: k in c'.blocks <==> k in c.blocks || k in Hashes(cr, bs))
    && c'.states[c'.tip] == ApplyAll(cr, c.states[c.tip], TransactionsOf(bs))
  }

  lemma OneMoreMined(cr: Crypto, c: Chain, t: Chain, bs: seq<Block>, b: Block)
    requires Sound(cr, c) && Extended(cr, c, t, bs) && Attachable(cr, t, b) && b.header.parent == t.tip
    ensures CanInsert(t, b) && Extended(cr, c, Insert(cr, t, b), bs + [b])
  {
    var t' := Insert(cr, t, b);
    ExtendsTip(cr, t, b);
    GrowsTransitive(c, t, t');
    OneMoreBlock(cr, bs, b);
    AppendAssociates(LongestChain(cr, c), Hashes(cr, bs), [BlockHash(cr, b)]);
    ApplyConcat(cr, c.states[c.tip], TransactionsOf(bs), b.content.transactions);
  }

  lemma OneMoreBlock(cr: Crypto, bs: seq<Block>, b: Block)
    ensures Hashes(cr, bs + [b]) == Hashes(cr, bs) + [BlockHash(cr, b)]
    ensures TransactionsOf(bs + [b]) == TransactionsOf(bs) + b.content.transactions
  {
    assert (bs + [b])[..|bs|] == bs;
  }

  /** The hashes of `bs` are new and differ from each other. */
  ghost predicate NewHashes(cr: Crypto, c: Chain, bs: seq<Block>) {
    Distinct(Hashes(cr, bs)) && forall h :: h in Hashes(cr, bs) ==> h !in c.blocks
  }

  lemma NewBefore(cr: Crypto, c: Chain, bs: seq<Block>, b: Block)
    requires NewHashes(cr, c, bs + [b])
    ensures NewHashes(cr, c, bs) && BlockHash(cr, b) !in Hashes(cr, bs) && BlockHash(cr, b) !in c.blocks
  {
    OneMoreBlock(cr, bs, b);
    var hs, h := Hashes(cr, bs), BlockHash(cr, b);
    assert Hashes(cr, bs + [b])[|hs|] == h;
    assert forall i :: 0 <= i < |hs| ==> Hashes(cr, bs + [b])[i] == hs[i];
  }

  lemma LastTry(cr: Crypto, c: Chain, tries: seq<Attempt>)
    requires Ready(c) && tries != [] && NewHashes(cr, c, Successes(cr, c, tries))
    ensures var t, before := MineAll(cr, c, tries[..|tries| - 1]), Successes(cr, c, tries[..|tries| - 1]);
      var b := Candidate(t, tries[|tries| - 1]);
      && NewHashes(cr, c, before) && CanInsert(t, b)
      && if Mined(cr, b) then
           && Successes(cr, c, tries) == before + [b] && MineAll(cr, c, tries) == Insert(cr, t, b)
           && BlockHash(cr, b) !in Hashes(cr, before) && BlockHash(cr, b) !in c.blocks
         else Successes(cr, c, tries) == before && MineAll(cr, c, tries) == t
  {
    var t, before := MineAll(cr, c, tries[..|tries| - 1]), Successes(cr, c, tries[..|tries| - 1]);
    OnMineReady(cr, t, tries[|tries| - 1]);
    var b := Candidate(t, tries[|tries| - 1]);
    if Mined(cr, b) {
      NewBefore(cr, c, before, b);
    } else {
      assert before + [] == before;
    }
  }

  /** However many attempts a node makes, it builds one chain out of those that succeed, if their hashes are
      new. */
  lemma {:induction false} MinesAChain(cr: Crypto, c: Chain, tries: seq<Attempt>)
    requires Sound(cr, c) && NewHashes(cr, c, Successes(cr, c, tries))
    ensures Extended(cr, c, MineAll(cr, c, tries), Successes(cr, c, tries))
  {
    if tries == [] {
      assert LongestChain(cr, c) + [] == LongestChain(cr, c);
    } else {
      var init, a := tries[..|tries| - 1], tries[|tries| - 1];
      var t, before := MineAll(cr, c, init), Successes(cr, c, init);
      var b := Candidate(t, a);
      LastTry(cr, c, tries);
      MinesAChain(cr, c, init);
      TipDifficulty(cr, t);
      if Mined(cr, b) {
        OneMoreMined(cr, c, t, before, b);
      }
    }
  }
}
