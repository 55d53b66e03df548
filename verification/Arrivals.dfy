/** In what order blocks arrive. How they are grouped into messages does not matter. Those that arrive before
    their parent (src/blockchain.rs:129-147) leave the buffer in the order in which they came in; since the
    first block seen among the highest is the tip, that order decides the tip. */
module Arrivals {
  import opened Hash
  import opened Blocks
  import opened Sequences
  import opened Chains
  import opened Cascades
  import opened Gossip
  import opened Deliveries

  // ----- How the blocks of several messages are grouped does not matter

  /** What was reported before has no influence on a cascade. */
  lemma {:induction false} CascadeOut(cr: Crypto, c: Chain, stack: seq<Block>, a: seq<H256>, b: seq<H256>)
    requires Ready(c) && AllParentsStored(c, stack)
    ensures var r, r' := Cascade(cr, c, stack, b), Cascade(cr, c, stack, a + b);
      r'.chain == r.chain && r'.out == a + r.out
    decreases c.orphans.Keys, |stack|
  {
    if stack == [] {
    } else if Contains(c, BlockHash(cr, stack[0])) {
      CascadeOut(cr, c, stack[1..], a, b);
    } else {
      NextReady(cr, c, stack);
      var h := BlockHash(cr, stack[0]);
      AppendAssociates(a, b, [h]);
      CascadeOut(cr, Adopt(cr, c, stack[0]), NextStack(cr, c, stack), a, b + [h]);
    }
  }

  /** `t` after `s`: the lists of `s` come first. */
  function After(s: Batch, t: Batch): Batch {
    Batch(t.chain, s.relay + t.relay, s.missing + t.missing, s.sent + t.sent)
  }

  lemma AfterOne(cr: Crypto, s: Batch, t: Batch, b: Block)
    requires Ready(t.chain)
    ensures ReceiveOne(cr, After(s, t), b) == After(s, ReceiveOne(cr, t, b))
  {
    if ParentStored(t.chain, b) {
      CascadeOut(cr, t.chain, [b], s.relay, t.relay);
      AppendAssociates(s.sent, t.sent, [Transactions(b.content.transactions)]);
    } else {
      AppendAssociates(s.missing, t.missing, [b.header.parent]);
    }
  }

  /** One message with the blocks of two does what the two do one after the other. */
  lemma {:induction false} ReceiveAllConcat(cr: Crypto, c: Chain, a: seq<Block>, b: seq<Block>)
    requires Ready(c)
    ensures ReceiveAll(cr, c, a + b) == After(ReceiveAll(cr, c, a), ReceiveAll(cr, ReceiveAll(cr, c, a).chain, b))
  {
    var s := ReceiveAll(cr, c, a);
    if b == [] {
      assert a + b == a;
    } else {
      var init, last := b[..|b| - 1], b[|b| - 1];
      assert (a + b)[..|a + b| - 1] == a + init;
      ReceiveAllConcat(cr, c, a, init);
      AfterOne(cr, s, ReceiveAll(cr, s.chain, init), last);
    }
  }

  function Flattened(msgs: seq<seq<Block>>): seq<Block> {
    if msgs == [] then [] else Flattened(msgs[..|msgs| - 1]) + msgs[|msgs| - 1]
  }

  lemma {:induction false} OneMessageDoes(cr: Crypto, msgs: seq<seq<Block>>)
    ensures Ready(New(cr)) && StoreAfter(cr, msgs) == ReceiveAll(cr, New(cr), Flattened(msgs)).chain
  {
    NewInv(cr);
    InvReady(cr, New(cr));
    if msgs == [] {
    } else {
      var init := msgs[..|msgs| - 1];
      OneMessageDoes(cr, init);
      ReceiveAllConcat(cr, New(cr), Flattened(init), msgs[|msgs| - 1]);
    }
  }

  /** The same blocks in the same order leave the same store, tip, contents and buffer, however they are
      grouped into messages. */
  lemma {:induction false} GroupingDoesNotMatter(cr: Crypto, msgs: seq<seq<Block>>, other: seq<seq<Block>>)
    requires Flattened(msgs) == Flattened(other)
    ensures StoreAfter(cr, msgs) == StoreAfter(cr, other)
  {
    OneMessageDoes(cr, msgs);
    OneMessageDoes(cr, other);
  }

  // ----- Children that arrive before their parent

  /** A valid new child of `p`, for which nothing waits. */
  ghost predicate Child(cr: Crypto, c: Chain, p: Block, x: Block) {
    && x.header.parent == BlockHash(cr, p) && PowValid(cr, c, x)
    && BlockHash(cr, x) !in c.blocks && BlockHash(cr, x) !in c.orphans && BlockHash(cr, x) != BlockHash(cr, p)
  }

  ghost predicate Children(cr: Crypto, c: Chain, p: Block, xs: seq<Block>) {
    forall x :: x in xs ==> Child(cr, c, p, x)
  }

  /** The store with `xs` waiting under `h`. */
  function Piled(c: Chain, h: H256, xs: seq<Block>): Chain {
    if xs == [] then c else c.(orphans := c.orphans[h := xs])
  }

  lemma OneMoreWaits(cr: Crypto, c: Chain, p: Block, xs: seq<Block>, x: Block, t: Batch)
    requires BlockHash(cr, p) !in c.blocks && BlockHash(cr, p) !in c.orphans && Child(cr, c, p, x)
    requires Ready(t.chain) && t.chain == Piled(c, BlockHash(cr, p), xs)
    ensures var t', h := ReceiveOne(cr, t, x), BlockHash(cr, p);
      && t'.chain == Piled(c, h, xs + [x])
      && t'.relay == t.relay && t'.sent == t.sent && t'.missing == t.missing + [h]
  {
    if xs == [] {
      assert [] + [x] == [x];
    } else {
      var h := BlockHash(cr, p);
      assert c.orphans[h := xs][h := xs + [x]] == c.orphans[h := xs + [x]];
    }
  }

  /** They wait for their parent in the order in which they came, each asks for it, and nothing else happens. */
  lemma {:induction false} OrphansPile(cr: Crypto, c: Chain, p: Block, xs: seq<Block>)
    requires Ready(c) && BlockHash(cr, p) !in c.blocks && BlockHash(cr, p) !in c.orphans && Children(cr, c, p, xs)
    ensures var h, t := BlockHash(cr, p), ReceiveAll(cr, c, xs);
      && t.chain == Piled(c, h, xs) && t.relay == [] && t.sent == []
      && |t.missing| == |xs| && forall i :: 0 <= i < |xs| ==> t.missing[i] == h
  {
    if xs == [] {
    } else {
      var init, x := xs[..|xs| - 1], xs[|xs| - 1];
      assert xs == init + [x];
      assert Child(cr, c, p, x);
      OrphansPile(cr, c, p, init);
      OneMoreWaits(cr, c, p, init, x, ReceiveAll(cr, c, init));
    }
  }

  /** Blocks that are no higher than the tip, and for which nothing waits, leave the tip alone. */
  lemma {:induction false} FlatCascade(cr: Crypto, c: Chain, stack: seq<Block>, out: seq<H256>)
    requires Ready(c) && AllParentsStored(c, stack)
    requires forall x :: x in stack ==>
      BlockHash(cr, x) !in c.orphans && c.heights[x.header.parent] + 1 <= c.heights[c.tip]
    ensures Cascade(cr, c, stack, out).chain.tip == c.tip
    decreases |stack|
  {
    if stack == [] {
    } else if Contains(c, BlockHash(cr, stack[0])) {
      FlatCascade(cr, c, stack[1..], out);
    } else {
      NextReady(cr, c, stack);
      var c1 := Adopt(cr, c, stack[0]);
      assert stack[0] in stack;
      forall x | x in stack[1..]
        ensures BlockHash(cr, x) !in c1.orphans && c1.heights[x.header.parent] + 1 <= c1.heights[c1.tip]
      {
        assert x in stack && ParentStored(c, x);
      }
      FlatCascade(cr, c1, stack[1..], out + [BlockHash(cr, stack[0])]);
    }
  }

  lemma {:induction false} PileReleased(cr: Crypto, c: Chain, p: Block, xs: seq<Block>, t: Batch)
    requires Ready(c) && Ready(t.chain) && Attachable(cr, c, p) && BlockHash(cr, p) !in c.orphans && xs != []
    requires t.chain == Piled(c, BlockHash(cr, p), xs) && t.relay == []
    ensures CanInsert(c, p)
    ensures var h, c1 := BlockHash(cr, p), Insert(cr, c, p);
      && Ready(c1) && AllParentsStored(c1, xs)
      && ReceiveOne(cr, t, p).chain == Cascade(cr, c1, xs, [h]).chain
      && ReceiveOne(cr, t, p).relay == Cascade(cr, c1, xs, [h]).out
  {
    var h, c1 := BlockHash(cr, p), Insert(cr, c, p);
    NextReady(cr, t.chain, [p]);
    assert Adopt(cr, t.chain, p).orphans == c.orphans;
    assert Adopt(cr, t.chain, p) == c1;
    assert NextStack(cr, t.chain, [p]) == xs;
    assert [] + [h] == [h];
  }

  /** The store once `p` itself is attached and its children are about to follow. */
  lemma {:induction false} Released(cr: Crypto, c: Chain, p: Block, xs: seq<Block>)
    requires Ready(c) && Attachable(cr, c, p) && BlockHash(cr, p) !in c.orphans
    requires xs != [] && Children(cr, c, p, xs)
    ensures var h, c1 := BlockHash(cr, p), Insert(cr, c, p);
      && CanInsert(c, p) && Ready(c1) && AllParentsStored(c1, xs)
      && c1.heights[h] == c.heights[p.header.parent] + 1
      && (forall x :: x in xs ==> BlockHash(cr, x) !in c1.blocks && BlockHash(cr, x) !in c1.orphans)
      && ReceiveAll(cr, c, xs + [p]).chain == Cascade(cr, c1, xs, [h]).chain
      && ReceiveAll(cr, c, xs + [p]).relay == Cascade(cr, c1, xs, [h]).out
  {
    var h, c1, t := BlockHash(cr, p), Insert(cr, c, p), ReceiveAll(cr, c, xs);
    OrphansPile(cr, c, p, xs);
    NextReady(cr, c, [p]);
    PileReleased(cr, c, p, xs, t);
    assert (xs + [p])[..|xs|] == xs;
    forall x | x in xs
      ensures ParentStored(c1, x) && BlockHash(cr, x) !in c1.blocks && BlockHash(cr, x) !in c1.orphans
    {
      assert Child(cr, c, p, x);
    }
  }

  /** Once the parent comes, the child that came first is the tip if the children rise above the tip at all;
      otherwise the tip stays. */
  lemma {:induction false} FirstOrphanWins(cr: Crypto, c: Chain, p: Block, xs: seq<Block>)
    requires Inv(cr, c) && Attachable(cr, c, p) && BlockHash(cr, p) !in c.orphans
    requires xs != [] && Children(cr, c, p, xs)
    ensures Ready(c)
    ensures ReceiveAll(cr, c, xs + [p]).chain.tip ==
      if c.heights[p.header.parent] + 2 > c.heights[c.tip] then BlockHash(cr, xs[0]) else c.tip
  {
    InvReady(cr, c);
    var h, c1 := BlockHash(cr, p), Insert(cr, c, p);
    Released(cr, c, p, xs);
    forall x | x in xs ensures x.header.parent == h && BlockHash(cr, x) !in c1.orphans {
      assert Child(cr, c, p, x);
    }
    if c.heights[p.header.parent] + 2 > c.heights[c.tip] {
      FirstOfFlatWins(cr, c1, xs, [h], h);
    } else {
      FlatCascade(cr, c1, xs, [h]);
    }
  }

  lemma {:induction false} FirstOfFlatWins(cr: Crypto, c: Chain, xs: seq<Block>, out: seq<H256>, h: H256)
    requires Ready(c) && AllParentsStored(c, xs) && xs != [] && h in c.blocks
    requires c.heights[h] + 1 > c.heights[c.tip] && BlockHash(cr, xs[0]) !in c.blocks
    requires forall x :: x in xs ==> x.header.parent == h && BlockHash(cr, x) !in c.orphans
    ensures Cascade(cr, c, xs, out).chain.tip == BlockHash(cr, xs[0])
  {
    NextReady(cr, c, xs);
    var c1 := Adopt(cr, c, xs[0]);
    assert xs[0] in xs;
    forall x | x in xs[1..]
      ensures BlockHash(cr, x) !in c1.orphans && c1.heights[x.header.parent] + 1 <= c1.heights[c1.tip]
    {
      assert x in xs;
    }
    FlatCascade(cr, c1, xs[1..], out + [BlockHash(cr, xs[0])]);
  }

  /** So of two children that arrive one by one before their parent, the one that came first is the tip. */
  lemma {:induction false} FirstOfTwoOrphansWins(cr: Crypto, c: Chain, p: Block, x: Block, y: Block)
    requires Inv(cr, c) && Attachable(cr, c, p) && BlockHash(cr, p) !in c.orphans && p.header.parent == c.tip
    requires Child(cr, c, p, x) && Child(cr, c, p, y)
    ensures Ready(c)
    ensures var c1 := ReceiveAll(cr, c, [x]).chain;
      var c2 := ReceiveAll(cr, c1, [y]).chain;
      ReceiveAll(cr, c2, [p]).chain.tip == BlockHash(cr, x)
  {
    InvReady(cr, c);
    ReceiveAllConcat(cr, c, [x], [y]);
    ReceiveAllConcat(cr, c, [x] + [y], [p]);
    FirstOrphanWins(cr, c, p, [x] + [y]);
  }

  // ----- The order in which they are released

  lemma HashesCons(cr: Crypto, bs: seq<Block>)
    requires bs != []
    ensures Hashes(cr, bs) == [BlockHash(cr, bs[0])] + Hashes(cr, bs[1..])
  {
    HashesAt(cr, bs);
    HashesAt(cr, bs[1..]);
  }

  lemma {:induction false} HashIn(cr: Crypto, bs: seq<Block>, x: Block)
    requires x in bs
    ensures BlockHash(cr, x) in Hashes(cr, bs)
  {
    HashesAt(cr, bs);
    var i :| 0 <= i < |bs| && bs[i] == x;
    assert Hashes(cr, bs)[i] == BlockHash(cr, x);
  }

  lemma DistinctTail(cr: Crypto, bs: seq<Block>, x: Block)
    requires bs != [] && Distinct(Hashes(cr, bs))
    ensures Distinct(Hashes(cr, bs[1..]))
    ensures x in bs[1..] ==> BlockHash(cr, x) != BlockHash(cr, bs[0])
  {
    HashesCons(cr, bs);
    DistinctRest(BlockHash(cr, bs[0]), Hashes(cr, bs[1..]));
    if x in bs[1..] {
      HashIn(cr, bs[1..], x);
    }
  }

  lemma DistinctRest(h: H256, later: seq<H256>)
    requires Distinct([h] + later)
    ensures Distinct(later) && h !in later
  {
    var all := [h] + later;
    assert all[0] == h && forall i :: 0 <= i < |later| ==> later[i] == all[i + 1];
  }

  lemma {:induction false} FlatOrder(cr: Crypto, c: Chain, stack: seq<Block>, out: seq<H256>)
    requires Ready(c) && AllParentsStored(c, stack) && Distinct(Hashes(cr, stack))
    requires forall x :: x in stack ==> BlockHash(cr, x) !in c.orphans && BlockHash(cr, x) !in c.blocks
    ensures Cascade(cr, c, stack, out).out == out + Hashes(cr, stack)
    decreases |stack|
  {
    if stack == [] {
    } else {
      NextReady(cr, c, stack);
      var h, c1 := BlockHash(cr, stack[0]), Adopt(cr, c, stack[0]);
      assert stack[0] in stack;
      HashesCons(cr, stack);
      DistinctTail(cr, stack, stack[0]);
      forall x | x in stack[1..] ensures BlockHash(cr, x) !in c1.orphans && BlockHash(cr, x) !in c1.blocks {
        assert x in stack;
        DistinctTail(cr, stack, x);
      }
      FlatOrder(cr, c1, stack[1..], out + [h]);
      AppendAssociates(out, [h], Hashes(cr, stack[1..]));
    }
  }

  /** The hashes relayed are the parent's and then the children's, in the order in which they arrived. */
  lemma {:induction false} ReleasedInOrder(cr: Crypto, c: Chain, p: Block, xs: seq<Block>)
    requires Inv(cr, c) && Attachable(cr, c, p) && BlockHash(cr, p) !in c.orphans
    requires xs != [] && Children(cr, c, p, xs) && Distinct(Hashes(cr, xs))
    ensures Ready(c) && ReceiveAll(cr, c, xs + [p]).relay == [BlockHash(cr, p)] + Hashes(cr, xs)
  {
    InvReady(cr, c);
    Released(cr, c, p, xs);
    FlatOrder(cr, Insert(cr, c, p), xs, [BlockHash(cr, p)]);
  }
}
