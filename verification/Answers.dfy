/** What a node writes in answer to the three messages about blocks (src/network/worker.rs:68-124), message by
    message and in order. */
module Answers {
  import opened Hash
  import opened Blocks
  import opened Sequences
  import opened Chains
  import opened Cascades
  import opened Gossip
  import opened Arrivals

  // ----- Announcements and requests

  lemma {:induction false} MissingPicks(c: Chain, hs: seq<H256>) returns (picks: seq<nat>)
    ensures Increasing(picks, |hs|) && |Missing(c, hs)| == |picks|
    ensures forall j :: 0 <= j < |picks| ==> Missing(c, hs)[j] == hs[picks[j]]
    ensures forall i :: 0 <= i < |hs| ==> (i in picks <==> hs[i] !in c.blocks)
  {
    if hs == [] {
      picks := [];
    } else {
      picks := MissingPicks(c, hs[..|hs| - 1]);
      picks := picks + if Contains(c, hs[|hs| - 1]) then [] else [|hs| - 1];
    }
  }

  lemma {:induction false} StoredPicks(c: Chain, hs: seq<H256>) returns (picks: seq<nat>)
    ensures Increasing(picks, |hs|) && |Stored(c, hs)| == |picks|
    ensures forall j :: 0 <= j < |picks| ==> hs[picks[j]] in c.blocks && Stored(c, hs)[j] == c.blocks[hs[picks[j]]]
    ensures forall i :: 0 <= i < |hs| ==> (i in picks <==> hs[i] in c.blocks)
  {
    if hs == [] {
      picks := [];
    } else {
      picks := StoredPicks(c, hs[..|hs| - 1]);
      picks := picks + if Contains(c, hs[|hs| - 1]) then [|hs| - 1] else [];
    }
  }

  /** An announcement is answered by one request for the hashes not stored, in the order announced, and by
      nothing if there are none. */
  lemma {:induction false} AnnouncementAnswered(c: Chain, hs: seq<H256>) returns (picks: seq<nat>)
    ensures Increasing(picks, |hs|) && forall i :: 0 <= i < |hs| ==> (i in picks <==> hs[i] !in c.blocks)
    ensures var eff := OnNewBlockHashes(c, hs);
      && eff.chain == c && eff.broadcasts == []
      && (if picks == [] then eff.replies == [] else
            && |eff.replies| == 1 && eff.replies[0].GetBlocks?
            && |eff.replies[0].hashes| == |picks|
            && forall j :: 0 <= j < |picks| ==> eff.replies[0].hashes[j] == hs[picks[j]])
  {
    picks := MissingPicks(c, hs);
  }

  lemma {:induction false} NothingStored(c: Chain, hs: seq<H256>)
    requires forall h :: h in hs ==> h !in c.blocks
    ensures Missing(c, hs) == hs
  {
    if hs == [] {
    } else {
      NothingStored(c, hs[..|hs| - 1]);
      assert hs == hs[..|hs| - 1] + [hs[|hs| - 1]];
    }
  }

  /** If none of the hashes is stored, the request is the announcement turned around. */
  lemma {:induction false} UnknownsAskedInOrder(c: Chain, hs: seq<H256>)
    requires hs != [] && forall h :: h in hs ==> h !in c.blocks
    ensures OnNewBlockHashes(c, hs).replies == [GetBlocks(hs)]
  {
    NothingStored(c, hs);
  }

  /** A request is answered by one message with the blocks stored, in the order asked for, and by nothing if
      there are none. */
  lemma {:induction false} RequestAnswered(c: Chain, hs: seq<H256>) returns (picks: seq<nat>)
    ensures Increasing(picks, |hs|) && forall i :: 0 <= i < |hs| ==> (i in picks <==> hs[i] in c.blocks)
    ensures var eff := OnGetBlocks(c, hs);
      && eff.chain == c && eff.broadcasts == []
      && (if picks == [] then eff.replies == [] else
            && |eff.replies| == 1 && eff.replies[0].Blocks?
            && |eff.replies[0].blocks| == |picks|
            && forall j :: 0 <= j < |picks| ==>
                 hs[picks[j]] in c.blocks && eff.replies[0].blocks[j] == c.blocks[hs[picks[j]]])
  {
    picks := StoredPicks(c, hs);
  }

  // ----- Blocks

  /** What becomes of one block of a message when its turn comes: it is known or invalid, it is stored, or it
      waits for its parent. */
  datatype Fate = Passed | Taken | Orphaned

  ghost function FateOf(cr: Crypto, c: Chain, b: Block): Fate {
    if BlockHash(cr, b) in c.blocks || !PowValid(cr, c, b) then Passed
    else if b.header.parent in c.blocks then Taken
    else Orphaned
  }

  ghost function Fates(cr: Crypto, c: Chain, bs: seq<Block>): (fates: seq<Fate>)
    requires Ready(c)
    ensures |fates| == |bs|
  {
    if bs == [] then []
    else
      var init := bs[..|bs| - 1];
      Fates(cr, c, init) + [FateOf(cr, ReceiveAll(cr, c, init).chain, bs[|bs| - 1])]
  }

  lemma {:induction false} FateAt(cr: Crypto, c: Chain, bs: seq<Block>, i: nat)
    requires Ready(c) && i < |bs|
    ensures Fates(cr, c, bs)[i] == FateOf(cr, ReceiveAll(cr, c, bs[..i]).chain, bs[i])
  {
    var init := bs[..|bs| - 1];
    if i < |init| {
      FateAt(cr, c, init, i);
      assert init[..i] == bs[..i];
    }
  }

  /** `picks` lists in order the indexes of the blocks with fate `f`. */
  ghost predicate Picks(fates: seq<Fate>, f: Fate, picks: seq<nat>) {
    Increasing(picks, |fates|) && forall i :: 0 <= i < |fates| ==> (i in picks <==> fates[i] == f)
  }

  lemma PicksMore(fates: seq<Fate>, f: Fate, picks: seq<nat>, last: Fate)
    requires Picks(fates, f, picks)
    ensures last == f ==> Picks(fates + [last], f, picks + [|fates|])
    ensures last != f ==> Picks(fates + [last], f, picks)
  {
  }

  /** `sent` carries the transactions of the blocks at `picks`. */
  ghost predicate Carries(sent: seq<Message>, bs: seq<Block>, picks: seq<nat>) {
    && |sent| == |picks|
    && forall j :: 0 <= j < |sent| ==>
         picks[j] < |bs| && sent[j] == Transactions(bs[picks[j]].content.transactions)
  }

  lemma CarriesMore(sent: seq<Message>, bs: seq<Block>, picks: seq<nat>, b: Block)
    requires Carries(sent, bs, picks)
    ensures Carries(sent, bs + [b], picks)
    ensures Carries(sent + [Transactions(b.content.transactions)], bs + [b], picks + [|bs|])
  {
  }

  /** `missing` names the parents of the blocks at `picks`. */
  ghost predicate NamesParents(missing: seq<H256>, bs: seq<Block>, picks: seq<nat>) {
    && |missing| == |picks|
    && forall j :: 0 <= j < |missing| ==> picks[j] < |bs| && missing[j] == bs[picks[j]].header.parent
  }

  lemma NamesMore(missing: seq<H256>, bs: seq<Block>, picks: seq<nat>, b: Block)
    requires NamesParents(missing, bs, picks)
    ensures NamesParents(missing, bs + [b], picks)
    ensures NamesParents(missing + [b.header.parent], bs + [b], picks + [|bs|])
  {
  }

  lemma {:induction false} LastTurn(cr: Crypto, c: Chain, init: seq<Block>, b: Block)
    requires Ready(c)
    ensures var t, t' := ReceiveAll(cr, c, init), ReceiveAll(cr, c, init + [b]);
      var f := FateOf(cr, t.chain, b);
      && Fates(cr, c, init + [b]) == Fates(cr, c, init) + [f]
      && (f.Taken? ==> t'.sent == t.sent + [Transactions(b.content.transactions)])
      && (!f.Taken? ==> t'.sent == t.sent)
      && (f.Orphaned? ==> t'.missing == t.missing + [b.header.parent])
      && (!f.Orphaned? ==> t'.missing == t.missing)
  {
    assert (init + [b])[..|init|] == init;
  }

  lemma {:induction false} SentPicks(cr: Crypto, c: Chain, bs: seq<Block>) returns (taken: seq<nat>)
    requires Ready(c)
    ensures Picks(Fates(cr, c, bs), Taken, taken) && Carries(ReceiveAll(cr, c, bs).sent, bs, taken)
  {
    if bs == [] {
      taken := [];
    } else {
      var init, b := bs[..|bs| - 1], bs[|bs| - 1];
      taken := SentPicks(cr, c, init);
      var t := ReceiveAll(cr, c, init);
      assert bs == init + [b];
      LastTurn(cr, c, init, b);
      PicksMore(Fates(cr, c, init), Taken, taken, FateOf(cr, t.chain, b));
      CarriesMore(t.sent, init, taken, b);
      if FateOf(cr, t.chain, b).Taken? {
        taken := taken + [|init|];
      }
    }
  }

  lemma {:induction false} AskedPicks(cr: Crypto, c: Chain, bs: seq<Block>) returns (orphaned: seq<nat>)
    requires Ready(c)
    ensures Picks(Fates(cr, c, bs), Orphaned, orphaned) && NamesParents(ReceiveAll(cr, c, bs).missing, bs, orphaned)
  {
    if bs == [] {
      orphaned := [];
    } else {
      var init, b := bs[..|bs| - 1], bs[|bs| - 1];
      orphaned := AskedPicks(cr, c, init);
      var t := ReceiveAll(cr, c, init);
      assert bs == init + [b];
      LastTurn(cr, c, init, b);
      PicksMore(Fates(cr, c, init), Orphaned, orphaned, FateOf(cr, t.chain, b));
      NamesMore(t.missing, init, orphaned, b);
      if FateOf(cr, t.chain, b).Orphaned? {
        orphaned := orphaned + [|init|];
      }
    }
  }

  /** The answer to a message of blocks: in order, the transactions of every block that was new and valid and
      had its parent stored when its turn came, and then at most one request, for the parents of those that
      had not. */
  lemma {:induction false} BlocksAnswered(cr: Crypto, c: Chain, bs: seq<Block>)
    returns (taken: seq<nat>, orphaned: seq<nat>)
    requires Inv(cr, c)
    ensures Ready(c) && Picks(Fates(cr, c, bs), Taken, taken) && Picks(Fates(cr, c, bs), Orphaned, orphaned)
    ensures var replies := OnBlocks(cr, c, bs).replies;
      && |replies| == |taken| + (if orphaned == [] then 0 else 1)
      && Carries(replies[..|taken|], bs, taken)
      && (orphaned != [] ==> replies[|taken|].GetBlocks? && NamesParents(replies[|taken|].hashes, bs, orphaned))
  {
    InvReady(cr, c);
    taken := SentPicks(cr, c, bs);
    orphaned := AskedPicks(cr, c, bs);
    assert OnBlocks(cr, c, bs).replies[..|taken|] == ReceiveAll(cr, c, bs).sent;
  }

  lemma BirthsConcat(a: map<H256, Block>, b: map<H256, Block>, c: map<H256, Block>, x: seq<H256>, y: seq<H256>)
    requires Births(a, b, x) && Births(b, c, y)
    ensures Births(a, c, x + y)
  {
    forall i | 0 <= i < |y| ensures y[i] !in x && y[i] !in b {
      assert Born(b, c, y, i);
      BornIffNew(a, b, x, y[i]);
    }
    DistinctConcat(x, y);
    forall i | 0 <= i < |x + y| ensures Born(a, c, x + y, i) {
      if i < |x| {
        assert Born(a, b, x, i) && (x + y)[..i] == x[..i];
      } else {
        assert Born(b, c, y, i - |x|) && (x + y)[..i] == x + y[..i - |x|];
        BornIffNew(a, b, x, c[y[i - |x|]].header.parent);
      }
    }
  }

  lemma {:induction false} RelayBirths(cr: Crypto, c: Chain, bs: seq<Block>)
    requires Inv(cr, c)
    ensures Ready(c)
    ensures var t := ReceiveAll(cr, c, bs); Births(c.blocks, t.chain.blocks, t.relay)
  {
    InvReady(cr, c);
    if bs == [] {
    } else {
      var init, b := bs[..|bs| - 1], bs[|bs| - 1];
      ReceiveAllInv(cr, c, init);
      RelayBirths(cr, c, init);
      RelayBirthsOne(cr, c, ReceiveAll(cr, c, init), b);
    }
  }

  lemma RelayBirthsOne(cr: Crypto, c: Chain, t: Batch, b: Block)
    requires Ready(t.chain) && Births(c.blocks, t.chain.blocks, t.relay)
    ensures var t' := ReceiveOne(cr, t, b); Births(c.blocks, t'.chain.blocks, t'.relay)
  {
    if ParentStored(t.chain, b) {
      var r := Cascade(cr, t.chain, [b], t.relay);
      var born := CascadeBirths(cr, t.chain, [b], t.relay, r);
      BirthsConcat(c.blocks, t.chain.blocks, r.chain.blocks, t.relay, born);
    }
  }

  /** What is newly stored is announced once to everybody, each hash once and after its parent's; nothing is
      announced if nothing is new. */
  lemma {:induction false} NewsSpread(cr: Crypto, c: Chain, bs: seq<Block>) returns (relay: seq<H256>)
    requires Inv(cr, c)
    ensures Ready(c)
    ensures var eff := OnBlocks(cr, c, bs);
      && Births(c.blocks, eff.chain.blocks, relay)
      && eff.broadcasts == if relay == [] then [] else [NewBlockHashes(relay)]
  {
    RelayBirths(cr, c, bs);
    relay := ReceiveAll(cr, c, bs).relay;
  }

  // ----- Whose transactions are sent

  lemma TakenStays(cr: Crypto, t: Batch, b: Block)
    requires Inv(cr, t.chain) && FateOf(cr, t.chain, b).Taken?
    ensures Ready(t.chain)
    ensures var c' := ReceiveOne(cr, t, b).chain; BlockHash(cr, b) in c'.blocks && c'.blocks[BlockHash(cr, b)] == b
  {
    InvReady(cr, t.chain);
    NextReady(cr, t.chain, [b]);
    CascadeGrows(cr, Adopt(cr, t.chain, b), NextStack(cr, t.chain, [b]), t.relay + [BlockHash(cr, b)]);
  }

  lemma {:induction false} TakenIsStored(cr: Crypto, c: Chain, bs: seq<Block>, i: nat)
    requires Inv(cr, c) && Ready(c) && i < |bs| && Fates(cr, c, bs)[i].Taken?
    ensures var h, c' := BlockHash(cr, bs[i]), ReceiveAll(cr, c, bs).chain;
      h !in c.blocks && h in c'.blocks && c'.blocks[h] == bs[i]
  {
    FateAt(cr, c, bs, i);
    CutAt(bs, i);
    TakenAtTurn(cr, c, bs[..i], bs[i], bs[i + 1..]);
  }

  lemma {:induction false} TakenAtTurn(cr: Crypto, c: Chain, init: seq<Block>, b: Block, rest: seq<Block>)
    requires Inv(cr, c) && Ready(c) && FateOf(cr, ReceiveAll(cr, c, init).chain, b).Taken?
    ensures var h, c' := BlockHash(cr, b), ReceiveAll(cr, c, init + [b] + rest).chain;
      h !in c.blocks && h in c'.blocks && c'.blocks[h] == b
  {
    ReceiveAllInv(cr, c, init);
    TakenAtEnd(cr, c, init, b);
    GrowsFrom(cr, c, init + [b], rest);
  }

  lemma {:induction false} TakenAtEnd(cr: Crypto, c: Chain, init: seq<Block>, b: Block)
    requires Inv(cr, c) && Ready(c) && FateOf(cr, ReceiveAll(cr, c, init).chain, b).Taken?
    ensures var h, c' := BlockHash(cr, b), ReceiveAll(cr, c, init + [b]).chain; h in c'.blocks && c'.blocks[h] == b
  {
    ReceiveAllInv(cr, c, init);
    TakenStays(cr, ReceiveAll(cr, c, init), b);
    assert (init + [b])[..|init|] == init;
  }

  lemma {:induction false} GrowsFrom(cr: Crypto, c: Chain, a: seq<Block>, b: seq<Block>)
    requires Inv(cr, c) && Ready(c)
    ensures Grows(ReceiveAll(cr, c, a).chain, ReceiveAll(cr, c, a + b).chain)
  {
    ReceiveAllInv(cr, c, a);
    ReceiveAllInv(cr, ReceiveAll(cr, c, a).chain, b);
    ReceiveAllConcat(cr, c, a, b);
  }

  /** Transactions sent back are those of a block of the message that was not stored before and is now. */
  lemma {:induction false} AnsweredWasStored(cr: Crypto, c: Chain, bs: seq<Block>, msg: Message) returns (i: nat)
    requires Inv(cr, c) && Ready(c) && msg in OnBlocks(cr, c, bs).replies && msg.Transactions?
    ensures i < |bs| && msg.transactions == bs[i].content.transactions
    ensures var h, c' := BlockHash(cr, bs[i]), OnBlocks(cr, c, bs).chain;
      h !in c.blocks && h in c'.blocks && c'.blocks[h] == bs[i]
  {
    var taken := SentPicks(cr, c, bs);
    var sent := ReceiveAll(cr, c, bs).sent;
    var j :| 0 <= j < |sent| && sent[j] == msg;
    i := taken[j];
    TakenIsStored(cr, c, bs, i);
  }

  lemma {:induction false} TakenIsAnswered(cr: Crypto, c: Chain, bs: seq<Block>, i: nat)
    requires Inv(cr, c) && Ready(c) && i < |bs| && Fates(cr, c, bs)[i].Taken?
    ensures Transactions(bs[i].content.transactions) in OnBlocks(cr, c, bs).replies
  {
    var taken := SentPicks(cr, c, bs);
    assert i in taken;
    var j :| 0 <= j < |taken| && taken[j] == i;
    assert ReceiveAll(cr, c, bs).sent[j] in ReceiveAll(cr, c, bs).sent;
  }

  /** The transactions of a valid block whose parent is stored are sent back if and only if its hash has not been
      stored by the time its turn comes. */
  lemma {:induction false} TakenIffUnstored(cr: Crypto, c: Chain, bs: seq<Block>, i: nat)
    requires Inv(cr, c) && Ready(c) && i < |bs| && PowValid(cr, c, bs[i]) && ParentStored(c, bs[i])
    ensures Fates(cr, c, bs)[i].Taken? <==> BlockHash(cr, bs[i]) !in ReceiveAll(cr, c, bs[..i]).chain.blocks
  {
    ReceiveAllInv(cr, c, bs[..i]);
    FateAt(cr, c, bs, i);
  }

  /** No other block with the hash of `b` waits under another header. */
  ghost predicate NoRival(cr: Crypto, c: Chain, b: Block) {
    forall x: Block :: Waiting(c, x) && BlockHash(cr, x) == BlockHash(cr, b) ==> x.header == b.header
  }

  lemma {:induction false} ComesFrom(cr: Crypto, c: Chain, bs: seq<Block>, h: H256) returns (x: Block)
    requires Inv(cr, c) && Ready(c) && h !in c.blocks && h in ReceiveAll(cr, c, bs).chain.blocks
    ensures BlockHash(cr, x) == h && (x in bs || Waiting(c, x))
  {
    ReceiveAllInv(cr, c, bs);
    ReceiveAllStores(cr, c, bs, h);
    x := ReceiveAll(cr, c, bs).chain.blocks[h];
    assert Linked(cr, ReceiveAll(cr, c, bs).chain, h);
  }

  /** Every valid new block whose parent was stored when the message came, the first in the message with its
      hash, has its transactions sent back, unless a waiting block collides with it. */
  lemma {:induction false} NewIsAnswered(cr: Crypto, c: Chain, bs: seq<Block>, i: nat)
    requires Inv(cr, c) && i < |bs| && Attachable(cr, c, bs[i]) && NoRival(cr, c, bs[i])
    requires forall j :: 0 <= j < i ==> BlockHash(cr, bs[j]) != BlockHash(cr, bs[i])
    ensures Ready(c) && Transactions(bs[i].content.transactions) in OnBlocks(cr, c, bs).replies
  {
    InvReady(cr, c);
    TakenIffUnstored(cr, c, bs, i);
    if BlockHash(cr, bs[i]) in ReceiveAll(cr, c, bs[..i]).chain.blocks {
      var x := ComesFrom(cr, c, bs[..i], BlockHash(cr, bs[i]));
      assert false;
    }
    TakenIsAnswered(cr, c, bs, i);
  }

  /** `x` waits for `p` and has the hash of `b`, whose parent is stored. */
  ghost predicate Rivals(cr: Crypto, c: Chain, p: Block, x: Block, b: Block) {
    && Attachable(cr, c, p) && BlockHash(cr, p) !in c.orphans
    && Child(cr, c, p, x) && Attachable(cr, c, b) && BlockHash(cr, b) == BlockHash(cr, x)
  }

  /** A rival does keep a valid new block from being answered: `x` waits, `p` releases it, and `b` comes too late. */
  lemma {:induction false} RivalSilences(cr: Crypto, c: Chain, p: Block, x: Block, b: Block)
    requires Inv(cr, c) && Ready(c) && Rivals(cr, c, p, x, b)
    ensures var c1 := ReceiveAll(cr, c, [x]).chain;
      && Inv(cr, c1) && Attachable(cr, c1, b) && BlockHash(cr, p) != BlockHash(cr, b)
      && OnBlocks(cr, c1, [p] + [b]).replies == [Transactions(p.content.transactions)]
  {
    ReceiveAllInv(cr, c, [x]);
    OrphansPile(cr, c, p, [x]);
    var c1 := ReceiveAll(cr, c, [x]).chain;
    RivalComesFirst(cr, c1, p, x, b);
  }

  lemma RivalComesFirst(cr: Crypto, c: Chain, p: Block, x: Block, b: Block)
    requires Inv(cr, c) && Ready(c) && FateOf(cr, c, p).Taken?
    requires Waiting(c, x) && x.header.parent == BlockHash(cr, p) && BlockHash(cr, b) == BlockHash(cr, x)
    ensures OnBlocks(cr, c, [p] + [b]).replies == [Transactions(p.content.transactions)]
  {
    ParentReleases(cr, c, p, x);
    LastTurn(cr, c, [p], b);
  }

  lemma ParentReleases(cr: Crypto, c: Chain, p: Block, x: Block)
    requires Inv(cr, c) && Ready(c) && FateOf(cr, c, p).Taken?
    requires Waiting(c, x) && x.header.parent == BlockHash(cr, p)
    ensures var t := ReceiveAll(cr, c, [p]);
      && BlockHash(cr, x) in t.chain.blocks && t.missing == [] && t.sent == [Transactions(p.content.transactions)]
  {
    LastTurn(cr, c, [], p);
    assert [] + [p] == [p];
    TakenAtEnd(cr, c, [], p);
    ReceiveAllInv(cr, c, [p]);
    ReceiveAllSettles(cr, c, [p], x);
  }

  /** Such blocks exist for a hash function that keeps one byte of the nonce. */
  lemma LowHash(h: H256)
    requires h.bytes[0] == 0
    ensures Leq(h, DefaultDifficulty())
  {
    CmpIsLexicographic(h, DefaultDifficulty());
  }

  lemma RivalsExist(t: SignedTransaction) returns (cr: Crypto, p: Block, x: Block, b: Block)
    ensures Rivals(cr, New(cr), p, x, b) && b.content.transactions == [t] && p.content.transactions == []
  {
    cr := Crypto((header: Header) => H256(Repeated(0).bytes[31 := header.nonce % 256]), _ => Repeated(0),
                 _ => Address([]));
    p := Block(Header(Root(cr), 1, DefaultDifficulty(), 0, Repeated(0)), Content([]));
    x := Block(Header(BlockHash(cr, p), 2, DefaultDifficulty(), 0, Repeated(0)), Content([]));
    b := Block(Header(Root(cr), 2, DefaultDifficulty(), 0, Repeated(0)), Content([t]));
    forall y: Block
      ensures Leq(BlockHash(cr, y), DefaultDifficulty()) && BlockHash(cr, y).bytes[31] == y.header.nonce % 256
    {
      LowHash(BlockHash(cr, y));
    }
  }
}
