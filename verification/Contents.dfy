/** In a run of the system one hash names one block, content included: a mined hash is new everywhere, and blocks
    travel unchanged. No assumption about the hash function is needed. */
module Contents {
  import opened Hash
  import opened Blocks
  import opened Chains
  import opened Cascades
  import opened Paths
  import opened Gossip
  import opened Network

  /** Some node stores this very block. */
  ghost predicate StoredSomewhere(cr: Crypto, s: System, x: Block) {
    exists m {:trigger Ships(cr, s.nodes[m], x)} :: m in s.nodes && Ships(cr, s.nodes[m], x)
  }

  /** Every waiting block is stored, as it is, by some node. */
  ghost predicate WaitingStored(cr: Crypto, s: System) {
    forall n, x: Block {:trigger Waiting(s.nodes[n], x)} ::
      n in s.nodes && Waiting(s.nodes[n], x) ==> StoredSomewhere(cr, s, x)
  }

  /** Whenever two nodes store a hash, they store the same block under it. */
  ghost predicate AllAlike(s: System) {
    forall n, m {:trigger Alike(s.nodes[n], s.nodes[m])} ::
      n in s.nodes && m in s.nodes ==> Alike(s.nodes[n], s.nodes[m])
  }

  // ----- Where blocks come from

  lemma StaysSomewhere(cr: Crypto, s: System, s': System, x: Block)
    requires StoredSomewhere(cr, s, x) && Progress(s, s')
    ensures StoredSomewhere(cr, s', x)
  {
    var m :| m in s.nodes && Ships(cr, s.nodes[m], x);
    assert Ships(cr, s'.nodes[m], x);
  }

  /** What a node newly stores has been shipped by a node that stores it, or was waiting. */
  lemma NewFromBlocks(cr: Crypto, c: Chain, from: Chain, bs: seq<Block>, h: H256)
    requires Inv(cr, c) && Ready(c) && forall x :: x in bs ==> Ships(cr, from, x)
    requires h in ReceiveAll(cr, c, bs).chain.blocks && h !in c.blocks
    ensures var x := ReceiveAll(cr, c, bs).chain.blocks[h];
      BlockHash(cr, x) == h && (x in bs || Waiting(c, x))
  {
    ReceiveAllInv(cr, c, bs);
    assert Linked(cr, ReceiveAll(cr, c, bs).chain, h);
    ReceiveAllStores(cr, c, bs, h);
  }

  /** What a delivery makes a node store was stored, as it is, by some node before. */
  lemma NewIsKnown(cr: Crypto, s: System, e: Envelope, h: H256)
    requires WaitingStored(cr, s) && Honest(cr, s, e) && Inv(cr, s.nodes[e.dst]) && Ready(s.nodes[e.dst])
    requires h in React(cr, s.nodes[e.dst], e.msg).chain.blocks && h !in s.nodes[e.dst].blocks
    ensures var x := React(cr, s.nodes[e.dst], e.msg).chain.blocks[h];
      BlockHash(cr, x) == h && StoredSomewhere(cr, s, x)
  {
    match e.msg
    case Blocks(bs) =>
      assert Shipped(e.msg) == bs;
      NewFromBlocks(cr, s.nodes[e.dst], s.nodes[e.src], bs, h);
      var x := ReceiveAll(cr, s.nodes[e.dst], bs).chain.blocks[h];
      if x in bs {
        assert Ships(cr, s.nodes[e.src], x);
      } else {
        assert Waiting(s.nodes[e.dst], x);
      }
    case _ =>
  }

  /** What waits at a node after a delivery was stored, as it is, by some node before. */
  lemma WaitingIsKnown(cr: Crypto, s: System, e: Envelope, x: Block)
    requires WaitingStored(cr, s) && Honest(cr, s, e) && Inv(cr, s.nodes[e.dst]) && Ready(s.nodes[e.dst])
    requires Waiting(React(cr, s.nodes[e.dst], e.msg).chain, x)
    ensures StoredSomewhere(cr, s, x)
  {
    if e.msg.Blocks? {
      assert Shipped(e.msg) == e.msg.blocks;
      ReceiveAllOrigin(cr, s.nodes[e.dst], e.msg.blocks, x);
    }
    if Waiting(s.nodes[e.dst], x) {
      assert StoredSomewhere(cr, s, x);
    } else {
      assert Ships(cr, s.nodes[e.src], x);
    }
  }

  // ----- Waiting blocks, step by step

  lemma {:induction false} DeliverWaiting(cr: Crypto, s: System, e: Envelope, s': System)
    requires WaitingStored(cr, s) && Honest(cr, s, e) && Inv(cr, s.nodes[e.dst]) && Ready(s.nodes[e.dst])
    requires e.dst in s.peers && s' == Delivered(cr, s, e) && Progress(s, s')
    ensures WaitingStored(cr, s')
  {
    forall n, x: Block | n in s'.nodes && Waiting(s'.nodes[n], x) ensures StoredSomewhere(cr, s', x) {
      DeliveredStore(cr, s, e, n);
      if n == e.dst {
        WaitingIsKnown(cr, s, e, x);
      } else {
        assert Waiting(s.nodes[n], x);
      }
      StaysSomewhere(cr, s, s', x);
    }
  }

  lemma WaitingCarriesOver(cr: Crypto, s: System, s': System)
    requires WaitingStored(cr, s) && Progress(s, s')
    requires forall n :: n in s'.nodes ==> n in s.nodes && s'.nodes[n].orphans == s.nodes[n].orphans
    ensures WaitingStored(cr, s')
  {
    forall n, x: Block | n in s'.nodes && Waiting(s'.nodes[n], x) ensures StoredSomewhere(cr, s', x) {
      assert Waiting(s.nodes[n], x);
      StaysSomewhere(cr, s, s', x);
    }
  }

  lemma {:induction false} StepWaiting(cr: Crypto, s: System, step: Step, s': System)
    requires Ordered(cr, s) && AllHonest(cr, s) && WaitingStored(cr, s)
    requires Next(cr, s, step, s') && Progress(s, s')
    ensures WaitingStored(cr, s')
  {
    if step.Deliver? {
      InFlightHonest(cr, s, step.e);
      DeliverWaiting(cr, s, step.e, s');
    } else {
      OrphansStay(cr, s, step, s');
      WaitingCarriesOver(cr, s, s');
    }
  }

  lemma StepWaitingAt(cr: Crypto, trace: seq<System>, steps: seq<Step>, k: nat)
    requires Run(cr, trace, steps) && k < |steps| && WaitingStored(cr, trace[k])
    ensures WaitingStored(cr, trace[k + 1])
  {
    RunStep(cr, trace, steps, k);
    StepWaiting(cr, trace[k], steps[k], trace[k + 1]);
  }

  /** In every state of every run every waiting block is stored, as it is, by some node. */
  lemma {:induction false} RunWaiting(cr: Crypto, trace: seq<System>, steps: seq<Step>, i: nat)
    requires Run(cr, trace, steps) && i < |trace|
    ensures WaitingStored(cr, trace[i])
  {
    if i == 0 {
    } else {
      var k := i - 1;
      RunWaiting(cr, trace, steps, k);
      StepWaitingAt(cr, trace, steps, k);
    }
  }

  // ----- One block per hash, step by step

  /** Everything node `n` newly stores is what others store under its hash. */
  ghost predicate NewAlike(s: System, n: nat, c: Chain) {
    forall m, h {:trigger h in s.nodes[m].blocks} ::
      n in s.nodes && m in s.nodes && h in c.blocks && h !in s.nodes[n].blocks && h in s.nodes[m].blocks ==>
      c.blocks[h] == s.nodes[m].blocks[h]
  }

  lemma DeliverNewAlike(cr: Crypto, s: System, e: Envelope)
    requires WaitingStored(cr, s) && AllAlike(s) && Honest(cr, s, e) && Inv(cr, s.nodes[e.dst]) && Ready(s.nodes[e.dst])
    ensures NewAlike(s, e.dst, React(cr, s.nodes[e.dst], e.msg).chain)
  {
    var c := React(cr, s.nodes[e.dst], e.msg).chain;
    forall m, h | m in s.nodes && h in c.blocks && h !in s.nodes[e.dst].blocks && h in s.nodes[m].blocks
      ensures c.blocks[h] == s.nodes[m].blocks[h]
    {
      NewIsKnown(cr, s, e, h);
      var p :| p in s.nodes && Ships(cr, s.nodes[p], c.blocks[h]);
      assert Alike(s.nodes[p], s.nodes[m]);
    }
  }

  /** Only node `n` changes its store, to `c`. */
  lemma OneNodeAlike(s: System, s': System, n: nat, c: Chain)
    requires AllAlike(s) && n in s.nodes && Grows(s.nodes[n], c) && NewAlike(s, n, c)
    requires s'.nodes == s.nodes[n := c]
    ensures AllAlike(s')
  {
    forall p, m | p in s'.nodes && m in s'.nodes ensures Alike(s'.nodes[p], s'.nodes[m]) {
      assert Alike(s.nodes[p], s.nodes[m]);
    }
  }

  lemma MineNewAlike(cr: Crypto, s: System, n: nat, b: Block)
    requires n in s.nodes && CanInsert(s.nodes[n], b) && (Mined(cr, b) ==> Unused(s, BlockHash(cr, b)))
    ensures NewAlike(s, n, OnMine(cr, s.nodes[n], b).chain)
  {
  }

  lemma {:induction false} StepAlike(cr: Crypto, s: System, step: Step, s': System)
    requires Ordered(cr, s) && AllHonest(cr, s) && WaitingStored(cr, s) && AllAlike(s)
    requires Next(cr, s, step, s') && Progress(s, s')
    ensures AllAlike(s')
  {
    match step
    case Deliver(e) =>
      InFlightHonest(cr, s, e);
      assert Inv(cr, s.nodes[e.dst]);
      DeliverNewAlike(cr, s, e);
      OneNodeAlike(s, s', e.dst, s'.nodes[e.dst]);
    case Mine(n, a) =>
      MineNewAlike(cr, s, n, Candidate(s.nodes[n], a));
      OneNodeAlike(s, s', n, s'.nodes[n]);
    case Connect(_, _) => assert s'.nodes == s.nodes;
    case Drop(_) => assert s'.nodes == s.nodes;
    case Chat(_) => assert s'.nodes == s.nodes;
  }

  lemma StepAlikeAt(cr: Crypto, trace: seq<System>, steps: seq<Step>, k: nat)
    requires Run(cr, trace, steps) && k < |steps| && AllAlike(trace[k])
    ensures AllAlike(trace[k + 1])
  {
    RunWaiting(cr, trace, steps, k);
    RunStep(cr, trace, steps, k);
    StepAlike(cr, trace[k], steps[k], trace[k + 1]);
  }

  lemma {:induction false} RunAlike(cr: Crypto, trace: seq<System>, steps: seq<Step>, i: nat)
    requires Run(cr, trace, steps) && i < |trace|
    ensures AllAlike(trace[i])
  {
    if i == 0 {
    } else {
      var k := i - 1;
      RunAlike(cr, trace, steps, k);
      StepAlikeAt(cr, trace, steps, k);
    }
  }

  /** In every state of every run, a hash that two nodes store names the same block at both, with the same content,
      at the same height, with the same path from genesis and the same unspent outputs. */
  lemma OneHashOneBlock(cr: Crypto, trace: seq<System>, steps: seq<Step>, i: nat, n: nat, m: nat, h: H256)
    requires Run(cr, trace, steps) && i < |trace| && n in trace[i].nodes && m in trace[i].nodes
    requires h in trace[i].nodes[n].blocks && h in trace[i].nodes[m].blocks
    ensures var c, d := trace[i].nodes[n], trace[i].nodes[m];
      && Inv(cr, c) && Inv(cr, d)
      && c.blocks[h] == d.blocks[h] && c.heights[h] == d.heights[h] && c.states[h] == d.states[h]
      && PathTo(cr, c, h) == PathTo(cr, d, h)
  {
    RunInv(cr, trace, steps, i);
    RunAlike(cr, trace, steps, i);
    assert Inv(cr, trace[i].nodes[n]) && Inv(cr, trace[i].nodes[m]) && Alike(trace[i].nodes[n], trace[i].nodes[m]);
    AlikeAt(cr, trace[i].nodes[n], trace[i].nodes[m], h);
  }
}
