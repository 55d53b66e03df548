/** What `insert_recursively` (src/blockchain.rs:136-147) does, as a worklist: blocks are attached one after
    the other, and each brings in the blocks that waited for it. */
module Cascades {
  import opened Hash
  import opened Blocks
  import opened Sequences
  import opened Chains

  /** No lookup that the recursion makes can fail. */
  ghost predicate Ready(c: Chain) {
    && c.heights.Keys == c.blocks.Keys && c.states.Keys == c.blocks.Keys && c.tip in c.blocks
    && forall k :: k in c.orphans ==> WaitFor(c.orphans[k], k)
  }

  ghost predicate WaitFor(bs: seq<Block>, parent: H256) {
    forall b :: b in bs ==> b.header.parent == parent
  }

  ghost predicate AllParentsStored(c: Chain, stack: seq<Block>) {
    forall b :: b in stack ==> ParentStored(c, b)
  }

  datatype Outcome = Outcome(chain: Chain, out: seq<H256>)

  lemma AdoptReady(cr: Crypto, c: Chain, b: Block)
    requires Ready(c) && ParentStored(c, b)
    ensures CanInsert(c, b)
    ensures var h, c' := BlockHash(cr, b), Adopt(cr, c, b);
      && Ready(c')
      && c'.blocks == c.blocks[h := b]
      && AllParentsStored(c', WaitingFor(c, h))
      && c'.orphans.Keys == c.orphans.Keys - {h}
      && (h !in c.orphans ==> c'.orphans == c.orphans)
  {
  }

  /** What is left to do once the first block of `stack` is attached. */
  function NextStack(cr: Crypto, c: Chain, stack: seq<Block>): seq<Block>
    requires stack != []
  {
    WaitingFor(c, BlockHash(cr, stack[0])) + stack[1..]
  }

  lemma NextReady(cr: Crypto, c: Chain, stack: seq<Block>)
    requires Ready(c) && AllParentsStored(c, stack) && stack != []
    ensures CanInsert(c, stack[0])
    ensures var h, c' := BlockHash(cr, stack[0]), Adopt(cr, c, stack[0]);
      && Ready(c') && AllParentsStored(c', NextStack(cr, c, stack))
      && c'.blocks == c.blocks[h := stack[0]]
      && c'.orphans.Keys == c.orphans.Keys - {h}
      && (h !in c.orphans ==> c'.orphans == c.orphans && NextStack(cr, c, stack) == stack[1..])
  {
    AdoptReady(cr, c, stack[0]);
    forall b | b in NextStack(cr, c, stack) ensures ParentStored(Adopt(cr, c, stack[0]), b) {
      if b !in WaitingFor(c, BlockHash(cr, stack[0])) {
        assert b in stack;
      }
    }
  }

  /** Attaches the blocks of `stack` in order, each followed by the blocks that wait for it; `out` collects
      the hashes of the blocks attached. */
  ghost function Cascade(cr: Crypto, c: Chain, stack: seq<Block>, out: seq<H256>): Outcome
    requires Ready(c) && AllParentsStored(c, stack)
    decreases c.orphans.Keys, |stack|
  {
    if stack == [] then Outcome(c, out)
    else if Contains(c, BlockHash(cr, stack[0])) then Cascade(cr, c, stack[1..], out)
    else
      NextReady(cr, c, stack);
      Cascade(cr, Adopt(cr, c, stack[0]), NextStack(cr, c, stack), out + [BlockHash(cr, stack[0])])
  }

  // ----- It only grows the store and empties the buffer

  ghost predicate Grows(c: Chain, c': Chain) {
    && (forall k :: k in c.blocks ==> k in c'.blocks && c'.blocks[k] == c.blocks[k])
    && (forall k :: k in c.heights ==> k in c'.heights && c'.heights[k] == c.heights[k])
    && (forall k :: k in c.states ==> k in c'.states && c'.states[k] == c.states[k])
    && c'.difficulty == c.difficulty
  }

  lemma GrowsTransitive(a: Chain, b: Chain, c: Chain)
    requires Grows(a, b) && Grows(b, c)
    ensures Grows(a, c)
  {
  }

  ghost predicate Drains(c: Chain, c': Chain) {
    forall k :: k in c'.orphans ==> k in c.orphans && c'.orphans[k] == c.orphans[k]
  }

  lemma {:induction false} CascadeGrows(cr: Crypto, c: Chain, stack: seq<Block>, out: seq<H256>)
    requires Ready(c) && AllParentsStored(c, stack)
    ensures var r := Cascade(cr, c, stack, out);
      Ready(r.chain) && Grows(c, r.chain) && Drains(c, r.chain)
    decreases c.orphans.Keys, |stack|
  {
    if stack == [] {
    } else {
      var b, rest := stack[0], stack[1..];
      var h := BlockHash(cr, b);
      if Contains(c, h) {
        CascadeGrows(cr, c, rest, out);
      } else {
        NextReady(cr, c, stack);
        var c1 := Adopt(cr, c, b);
        CascadeGrows(cr, c1, NextStack(cr, c, stack), out + [h]);
        GrowsTransitive(c, c1, Cascade(cr, c, stack, out).chain);
      }
    }
  }

  lemma {:induction false} CascadeAppend(cr: Crypto, c: Chain, a: seq<Block>, b: seq<Block>, out: seq<H256>, r: Outcome)
    requires Ready(c) && AllParentsStored(c, a) && AllParentsStored(c, a + b)
    requires r == Cascade(cr, c, a, out) && Ready(r.chain) && AllParentsStored(r.chain, b)
    ensures Cascade(cr, c, a + b, out) == Cascade(cr, r.chain, b, r.out)
    decreases c.orphans.Keys, |a|
  {
    if a == [] {
      assert a + b == b;
    } else {
      assert (a + b)[1..] == a[1..] + b;
      if Contains(c, BlockHash(cr, a[0])) {
        CascadeAppend(cr, c, a[1..], b, out, r);
      } else {
        NextReady(cr, c, a);
        NextReady(cr, c, a + b);
        assert NextStack(cr, c, a + b) == NextStack(cr, c, a) + b;
        CascadeAppend(cr, Adopt(cr, c, a[0]), NextStack(cr, c, a), b, out + [BlockHash(cr, a[0])], r);
      }
    }
  }

  /** Working through two lists at once is working through one and then the other. */
  lemma CascadeConcat(cr: Crypto, c: Chain, a: seq<Block>, b: seq<Block>, out: seq<H256>)
    requires Ready(c) && AllParentsStored(c, a) && AllParentsStored(c, b)
    ensures var r := Cascade(cr, c, a, out);
      && Ready(r.chain) && AllParentsStored(r.chain, b) && AllParentsStored(c, a + b)
      && Cascade(cr, c, a + b, out) == Cascade(cr, r.chain, b, r.out)
  {
    CascadeGrows(cr, c, a, out);
    CascadeAppend(cr, c, a, b, out, Cascade(cr, c, a, out));
  }

  // ----- It keeps the invariant

  lemma InvReady(cr: Crypto, c: Chain)
    requires Inv(cr, c)
    ensures Ready(c)
  {
  }

  ghost predicate AllPow(cr: Crypto, c: Chain, stack: seq<Block>) {
    forall b :: b in stack ==> PowValid(cr, c, b)
  }

  lemma NextPow(cr: Crypto, c: Chain, stack: seq<Block>)
    requires Buffer(cr, c) && AllPow(cr, c, stack) && stack != [] && CanInsert(c, stack[0])
    ensures AllPow(cr, Adopt(cr, c, stack[0]), NextStack(cr, c, stack))
  {
    forall b | b in NextStack(cr, c, stack) ensures PowValid(cr, c, b) {
      if b !in WaitingFor(c, BlockHash(cr, stack[0])) {
        assert b in stack;
      }
    }
  }

  lemma {:induction false} CascadeInv(cr: Crypto, c: Chain, stack: seq<Block>, out: seq<H256>)
    requires Inv(cr, c) && AllParentsStored(c, stack) && AllPow(cr, c, stack)
    ensures Ready(c) && Inv(cr, Cascade(cr, c, stack, out).chain)
    decreases c.orphans.Keys, |stack|
  {
    if stack == [] {
    } else {
      var b, rest := stack[0], stack[1..];
      var h := BlockHash(cr, b);
      if Contains(c, h) {
        CascadeInv(cr, c, rest, out);
      } else {
        AdoptInv(cr, c, b);
        NextReady(cr, c, stack);
        NextPow(cr, c, stack);
        CascadeInv(cr, Adopt(cr, c, b), NextStack(cr, c, stack), out + [h]);
      }
    }
  }

  // ----- It loses no block and invents none

  /** `b` has been dealt with: a block with its hash is stored, or it waits for its parent. */
  predicate Settled(cr: Crypto, c: Chain, b: Block) {
    Contains(c, BlockHash(cr, b)) || Waiting(c, b)
  }

  lemma {:induction false} CascadeSettles(cr: Crypto, c: Chain, stack: seq<Block>, out: seq<H256>, x: Block)
    requires Ready(c) && AllParentsStored(c, stack)
    requires x in stack || Settled(cr, c, x)
    ensures Settled(cr, Cascade(cr, c, stack, out).chain, x)
    ensures x in stack ==> Contains(Cascade(cr, c, stack, out).chain, BlockHash(cr, x))
    decreases c.orphans.Keys, |stack|
  {
    if stack == [] {
    } else {
      var b, rest := stack[0], stack[1..];
      var h := BlockHash(cr, b);
      if Contains(c, h) {
        CascadeGrows(cr, c, rest, out);
        if x in rest || Settled(cr, c, x) {
          CascadeSettles(cr, c, rest, out, x);
        }
      } else {
        NextReady(cr, c, stack);
        var c1, next := Adopt(cr, c, b), NextStack(cr, c, stack);
        CascadeGrows(cr, c1, next, out + [h]);
        if x in next || Settled(cr, c1, x) {
          CascadeSettles(cr, c1, next, out + [h], x);
        }
      }
    }
  }

  /** A block in the resulting store was there before, or was on the list, or waited. */
  lemma {:induction false} CascadeOrigin(cr: Crypto, c: Chain, stack: seq<Block>, out: seq<H256>, k: H256)
    requires Ready(c) && AllParentsStored(c, stack)
    requires k in Cascade(cr, c, stack, out).chain.blocks && k !in c.blocks
    ensures var b := Cascade(cr, c, stack, out).chain.blocks[k];
      BlockHash(cr, b) == k && (b in stack || Waiting(c, b))
    decreases c.orphans.Keys, |stack|
  {
    if stack == [] {
    } else {
      var b, rest := stack[0], stack[1..];
      var h := BlockHash(cr, b);
      if Contains(c, h) {
        CascadeOrigin(cr, c, rest, out, k);
      } else {
        NextReady(cr, c, stack);
        var c1, next := Adopt(cr, c, b), NextStack(cr, c, stack);
        CascadeGrows(cr, c1, next, out + [h]);
        if k != h {
          CascadeOrigin(cr, c1, next, out + [h], k);
        }
      }
    }
  }

  /** A key leaves the buffer only when its hash is stored. */
  lemma {:induction false} CascadeLeaves(cr: Crypto, c: Chain, stack: seq<Block>, out: seq<H256>, k: H256)
    requires Ready(c) && AllParentsStored(c, stack) && k in c.orphans
    ensures var r := Cascade(cr, c, stack, out); k in r.chain.orphans || Contains(r.chain, k)
    decreases c.orphans.Keys, |stack|
  {
    if stack == [] {
    } else if Contains(c, BlockHash(cr, stack[0])) {
      CascadeLeaves(cr, c, stack[1..], out, k);
    } else {
      var h := BlockHash(cr, stack[0]);
      NextReady(cr, c, stack);
      var c1, next := Adopt(cr, c, stack[0]), NextStack(cr, c, stack);
      if k == h {
        CascadeGrows(cr, c1, next, out + [h]);
      } else {
        CascadeLeaves(cr, c1, next, out + [h], k);
      }
    }
  }

  // ----- It reports exactly what it stored, parents first

  /** `born` lists, without repetition and parents first, the hashes by which `now` extends `before`. */
  ghost predicate Births(before: map<H256, Block>, now: map<H256, Block>, born: seq<H256>) {
    && Distinct(born)
    && (forall k :: k in before ==> k in now && now[k] == before[k])
    && (forall k :: k in now ==> k in before || k in born)
    && (forall i :: 0 <= i < |born| ==> Born(before, now, born, i))
  }

  ghost predicate Born(before: map<H256, Block>, now: map<H256, Block>, born: seq<H256>, i: nat)
    requires i < |born|
  {
    && born[i] !in before && born[i] in now
    && (now[born[i]].header.parent in before || now[born[i]].header.parent in born[..i])
  }

  lemma BornIffNew(before: map<H256, Block>, now: map<H256, Block>, born: seq<H256>, k: H256)
    requires Births(before, now, born)
    ensures k in born <==> k in now && k !in before
  {
    if k in born {
      var i :| 0 <= i < |born| && born[i] == k;
      assert Born(before, now, born, i);
    }
  }

  lemma BirthsCons(before: map<H256, Block>, with: map<H256, Block>, now: map<H256, Block>, h: H256, b: Block,
          later: seq<H256>)
    requires h !in before && b.header.parent in before
    requires with == before[h := b] && Births(with, now, later)
    ensures Births(before, now, [h] + later)
  {
    var born := [h] + later;
    assert h in with;
    forall i | 0 <= i < |later| ensures later[i] != h {
      assert Born(with, now, later, i);
    }
    DistinctConcat([h], later);
    forall i | 0 <= i < |born| ensures Born(before, now, born, i) {
      if i > 0 {
        assert Born(with, now, later, i - 1);
        assert born[..i] == [h] + later[..i - 1];
      }
    }
  }

  /** The hashes that the cascade appends to `out` are exactly those it stored. */
  lemma {:induction false} CascadeBirths(cr: Crypto, c: Chain, stack: seq<Block>, out: seq<H256>, r: Outcome)
    returns (born: seq<H256>)
    requires Ready(c) && AllParentsStored(c, stack) && r == Cascade(cr, c, stack, out)
    ensures r.out == out + born && Births(c.blocks, r.chain.blocks, born)
    decreases c.orphans.Keys, |stack|
  {
    if stack == [] {
      born := [];
    } else if Contains(c, BlockHash(cr, stack[0])) {
      born := CascadeBirths(cr, c, stack[1..], out, r);
    } else {
      var h := BlockHash(cr, stack[0]);
      NextReady(cr, c, stack);
      var c1 := Adopt(cr, c, stack[0]);
      assert ParentStored(c, stack[0]);
      var later := CascadeBirths(cr, c1, NextStack(cr, c, stack), out + [h], r);
      BirthsCons(c.blocks, c1.blocks, r.chain.blocks, h, stack[0], later);
      born := [h] + later;
      AppendAssociates(out, [h], later);
    }
  }

  // ----- The contract of one insertion

  /** `t` holds the hash of `b`, and with a hash also those of the blocks that wait for it and are not
      stored already: the block and its waiting descendants. */
  ghost predicate Pulled(cr: Crypto, c: Chain, b: Block, t: seq<H256>) {
    && BlockHash(cr, b) in t
    && forall x: Block :: Waiting(c, x) && x.header.parent in t ==>
      BlockHash(cr, x) in t || Contains(c, BlockHash(cr, x))
  }

  lemma {:induction false} PulledAtLeast(cr: Crypto, c: Chain, b: Block, r: Outcome)
    requires Inv(cr, c) && Attachable(cr, c, b) && Ready(c) && r == Cascade(cr, c, [b], [])
    requires Births(c.blocks, r.chain.blocks, r.out)
    ensures Pulled(cr, c, b, r.out)
  {
    CascadeInv(cr, c, [b], []);
    CascadeSettles(cr, c, [b], [], b);
    forall x: Block | Waiting(c, x) && x.header.parent in r.out
      ensures BlockHash(cr, x) in r.out || Contains(c, BlockHash(cr, x))
    {
      CascadeSettles(cr, c, [b], [], x);
      var i :| 0 <= i < |r.out| && r.out[i] == x.header.parent;
      assert Born(c.blocks, r.chain.blocks, r.out, i);
    }
  }

  lemma {:induction false} PulledAtMost(cr: Crypto, c: Chain, b: Block, r: Outcome, t: seq<H256>, i: nat)
    requires Inv(cr, c) && Attachable(cr, c, b) && Ready(c) && r == Cascade(cr, c, [b], [])
    requires Births(c.blocks, r.chain.blocks, r.out) && Pulled(cr, c, b, t) && i < |r.out|
    ensures r.out[i] in t
  {
    var h := r.out[i];
    assert Born(c.blocks, r.chain.blocks, r.out, i);
    CascadeOrigin(cr, c, [b], [], h);
    var x := r.chain.blocks[h];
    if x != b {
      assert Waiting(c, x) && x.header.parent in r.out[..i];
      var j :| 0 <= j < i && r.out[j] == x.header.parent;
      PulledAtMost(cr, c, b, r, t, j);
    }
  }

  /** The buffer loses exactly what waited for a block now stored. */
  lemma BufferAfter(cr: Crypto, c: Chain, b: Block, r: Outcome)
    requires Ready(c) && ParentStored(c, b) && r == Cascade(cr, c, [b], [])
    requires Births(c.blocks, r.chain.blocks, r.out) && Buffer(cr, c) && Buffer(cr, r.chain)
    ensures r.chain.orphans == c.orphans - (set h | h in r.out)
  {
    CascadeGrows(cr, c, [b], []);
    forall k | k in c.orphans ensures k in r.chain.orphans <==> k !in r.out {
      CascadeLeaves(cr, c, [b], [], k);
      BornIffNew(c.blocks, r.chain.blocks, r.out, k);
    }
  }

  /** `insert_recursively` on a new block stores exactly that block and its waiting descendants, reports the
      hash of each once and after its parent's, and takes exactly what waited for these out of the buffer. */
  lemma CascadeContract(cr: Crypto, c: Chain, b: Block, t: seq<H256>)
    requires Inv(cr, c) && Attachable(cr, c, b)
    ensures Ready(c)
    ensures var r := Cascade(cr, c, [b], []);
      && Inv(cr, r.chain) && Grows(c, r.chain)
      && Births(c.blocks, r.chain.blocks, r.out)
      && r.chain.orphans == c.orphans - (set h | h in r.out)
      && Pulled(cr, c, b, r.out)
      && (Pulled(cr, c, b, t) ==> forall h :: h in r.out ==> h in t)
  {
    InvReady(cr, c);
    var r := Cascade(cr, c, [b], []);
    CascadeInv(cr, c, [b], []);
    CascadeGrows(cr, c, [b], []);
    var born := CascadeBirths(cr, c, [b], [], r);
    assert r.out == born;
    BufferAfter(cr, c, b, r);
    PulledAtLeast(cr, c, b, r);
    if Pulled(cr, c, b, t) {
      forall i | 0 <= i < |r.out| ensures r.out[i] in t {
        PulledAtMost(cr, c, b, r, t, i);
      }
    }
  }
}
