/** What a link leaves behind that is made between nodes with different stores, and what it catches up on: the old
    blocks that ever move are exactly those that something new is built on. */
module LateLinks {
  import opened Hash
  import opened Blocks
  import opened Chains
  import opened Cascades
  import opened Paths
  import opened Gossip
  import opened Network
  import opened Contents
  import opened Agreement
  import opened Quiescence

  // ----- What is built on is caught up on

  /** Whatever `a` was ahead by when `b` came onto its list, `b` catches up on the ancestors of every block that
      `a` stores afterwards: once nothing about blocks is in flight between them, `b` stores the whole path to
      it, with the same state, and its tip is at least as high. With `a`'s tip for `h`, that is `a`'s longest
      chain. */
  lemma CatchesUp(cr: Crypto, trace: seq<System>, steps: seq<Step>, a: nat, b: nat, j: nat, i: nat, h: H256)
    requires Run(cr, trace, steps) && j <= i < |trace| && Lossless(steps, a, b, j, i) && Quiet(trace[i], a, b)
    requires a in trace[j].nodes && a in trace[j].peers && b in trace[j].peers[a]
    ensures a in trace[i].nodes && b in trace[i].nodes && Inv(cr, trace[i].nodes[a]) && Inv(cr, trace[i].nodes[b])
    ensures var ca, cb := trace[i].nodes[a], trace[i].nodes[b];
      h in ca.blocks && h !in trace[j].nodes[a].blocks ==>
        && h in cb.blocks && cb.blocks[h] == ca.blocks[h] && cb.states[h] == ca.states[h]
        && PathTo(cr, cb, h) == PathTo(cr, ca, h)
        && (forall k :: 0 <= k < |PathTo(cr, ca, h)| ==> PathTo(cr, ca, h)[k] in cb.blocks)
        && cb.heights[cb.tip] >= ca.heights[h]
  {
    QuietInclusion(cr, trace, steps, a, b, j, i);
    RunInv(cr, trace, steps, i);
    var ca, cb := trace[i].nodes[a], trace[i].nodes[b];
    assert Inv(cr, ca) && Inv(cr, cb);
    if h in ca.blocks && h !in trace[j].nodes[a].blocks {
      assert h !in Ahead(trace[i], a, b);
      OneHashOneBlock(cr, trace, steps, i, a, b, h);
      PathToIsPath(cr, cb, h);
    }
  }

  // ----- Nothing else that is old moves

  /** Everything that any node stores. */
  ghost function AllStored(s: System): set<H256> {
    set n, h | n in s.nodes && h in s.nodes[n].blocks :: h
  }

  ghost predicate OnPathAt(cr: Crypto, c: Chain, g: H256, h: H256) {
    Inv(cr, c) && g in c.blocks && h in PathTo(cr, c, g)
  }

  /** Some node stores a block that is not among `former`, and `h` is it or one of its ancestors. */
  ghost predicate BuiltOn(cr: Crypto, s: System, former: set<H256>, h: H256) {
    exists m, g {:trigger OnPathAt(cr, s.nodes[m], g, h)} ::
      m in s.nodes && g !in former && OnPathAt(cr, s.nodes[m], g, h)
  }

  lemma BuiltOnStays(cr: Crypto, s: System, s': System, former: set<H256>, h: H256)
    requires BuiltOn(cr, s, former, h) && Progress(s, s') && Ordered(cr, s')
    ensures BuiltOn(cr, s', former, h)
  {
    var m, g :| m in s.nodes && g !in former && OnPathAt(cr, s.nodes[m], g, h);
    assert Inv(cr, s'.nodes[m]);
    PathStable(cr, s.nodes[m], s'.nodes[m], g);
    assert OnPathAt(cr, s'.nodes[m], g, h);
  }

  /** A path holds the parent of every block on it but genesis, and ends with its own block. */
  lemma {:induction false} PathHasParents(cr: Crypto, c: Chain, g: H256, h: H256)
    requires Tree(cr, c) && g in c.blocks && h in PathTo(cr, c, g)
    ensures h in c.blocks
    ensures h != Root(cr) ==> c.blocks[h].header.parent in PathTo(cr, c, g)
    decreases c.heights[g]
  {
    PathToIsPath(cr, c, g);
    if c.heights[g] == 0 {
    } else {
      assert Linked(cr, c, g);
      var parent := c.blocks[g].header.parent;
      if h == g {
        PathToIsPath(cr, c, parent);
        assert parent == PathTo(cr, c, parent)[|PathTo(cr, c, parent)| - 1];
      } else {
        PathHasParents(cr, c, parent, h);
      }
    }
  }

  /** If something new is built on a block, something new is built on its parent. */
  lemma BuiltOnParent(cr: Crypto, s: System, former: set<H256>, x: Block)
    requires AllAlike(s) && StoredSomewhere(cr, s, x)
    requires BuiltOn(cr, s, former, BlockHash(cr, x)) && BlockHash(cr, x) != Root(cr)
    ensures BuiltOn(cr, s, former, x.header.parent)
  {
    var h := BlockHash(cr, x);
    var m, g :| m in s.nodes && g !in former && OnPathAt(cr, s.nodes[m], g, h);
    var p :| p in s.nodes && Ships(cr, s.nodes[p], x);
    PathHasParents(cr, s.nodes[m], g, h);
    assert Alike(s.nodes[p], s.nodes[m]);
    assert OnPathAt(cr, s.nodes[m], g, x.header.parent);
  }

  /** Since state `s0`, nodes have come to store, wait for and talk about only such blocks as something new is
      built on. */
  ghost predicate OnlyBuiltOn(cr: Crypto, s0: System, s: System) {
    NewBuiltOn(cr, s0, s) && WaitingBuiltOn(cr, s0, s) && FlightBuiltOn(cr, s0, s)
  }

  ghost predicate NewBuiltOn(cr: Crypto, s0: System, s: System) {
    forall n, h {:trigger s.nodes[n], BuiltOn(cr, s, AllStored(s0), h)} ::
      n in s.nodes && n in s0.nodes && h in s.nodes[n].blocks && h !in s0.nodes[n].blocks ==>
        BuiltOn(cr, s, AllStored(s0), h)
  }

  ghost predicate WaitingBuiltOn(cr: Crypto, s0: System, s: System) {
    forall n, x: Block {:trigger Waiting(s.nodes[n], x)} ::
      n in s.nodes && Waiting(s.nodes[n], x) ==> BuiltOn(cr, s, AllStored(s0), BlockHash(cr, x))
  }

  ghost predicate FlightBuiltOn(cr: Crypto, s0: System, s: System) {
    forall e {:trigger MsgBuiltOn(cr, s0, s, e.msg)} :: e in s.flight ==> MsgBuiltOn(cr, s0, s, e.msg)
  }

  ghost predicate MsgBuiltOn(cr: Crypto, s0: System, s: System, msg: Message) {
    forall h :: h in About(cr, msg) ==> BuiltOn(cr, s, AllStored(s0), h)
  }

  ghost predicate NothingWaits(s: System) {
    forall n :: n in s.nodes ==> s.nodes[n].orphans == map[]
  }

  lemma StartBuiltOn(cr: Crypto, s: System)
    requires AtRest(s) && NothingWaits(s)
    ensures OnlyBuiltOn(cr, s, s)
  {
  }

  lemma MsgStays(cr: Crypto, s0: System, s: System, s': System, msg: Message)
    requires MsgBuiltOn(cr, s0, s, msg) && Progress(s, s') && Ordered(cr, s')
    ensures MsgBuiltOn(cr, s0, s', msg)
  {
    forall h | h in About(cr, msg) ensures BuiltOn(cr, s', AllStored(s0), h) {
      BuiltOnStays(cr, s, s', AllStored(s0), h);
    }
  }

  // ----- One delivery

  lemma DeliverNewBuiltOn(cr: Crypto, s0: System, s: System, e: Envelope, h: H256)
    requires OnlyBuiltOn(cr, s0, s) && e in s.flight && Honest(cr, s, e) && Inv(cr, s.nodes[e.dst])
    requires Ready(s.nodes[e.dst])
    requires h in React(cr, s.nodes[e.dst], e.msg).chain.blocks && h !in s.nodes[e.dst].blocks
    ensures BuiltOn(cr, s, AllStored(s0), h)
  {
    assert MsgBuiltOn(cr, s0, s, e.msg);
    match e.msg
    case Blocks(bs) =>
      assert Shipped(e.msg) == bs;
      NewFromBlocks(cr, s.nodes[e.dst], s.nodes[e.src], bs, h);
      HashesExactly(cr, bs);
      var x := ReceiveAll(cr, s.nodes[e.dst], bs).chain.blocks[h];
      if x in bs {
        assert HasHash(cr, bs, h);
      } else {
        assert Waiting(s.nodes[e.dst], x);
      }
    case _ =>
  }

  lemma DeliverWaitingBuiltOn(cr: Crypto, s0: System, s: System, e: Envelope, x: Block)
    requires OnlyBuiltOn(cr, s0, s) && e in s.flight && e.dst in s.nodes && Inv(cr, s.nodes[e.dst])
    requires Ready(s.nodes[e.dst])
    requires Waiting(React(cr, s.nodes[e.dst], e.msg).chain, x)
    ensures BuiltOn(cr, s, AllStored(s0), BlockHash(cr, x))
  {
    assert MsgBuiltOn(cr, s0, s, e.msg);
    if e.msg.Blocks? {
      ReceiveAllOrigin(cr, s.nodes[e.dst], e.msg.blocks, x);
      HashesExactly(cr, e.msg.blocks);
      assert x in e.msg.blocks ==> HasHash(cr, e.msg.blocks, BlockHash(cr, x));
    }
    if Waiting(s.nodes[e.dst], x) {
      assert BuiltOn(cr, s, AllStored(s0), BlockHash(cr, x));
    }
  }

  /** A request for parents of such blocks. */
  lemma MissingBuiltOn(cr: Crypto, s0: System, s: System, e: Envelope, m: H256)
    requires OnlyBuiltOn(cr, s0, s) && AllAlike(s) && e in s.flight && Honest(cr, s, e) && e.msg.Blocks?
    requires Inv(cr, s.nodes[e.dst]) && Ready(s.nodes[e.dst])
    requires m in ReceiveAll(cr, s.nodes[e.dst], e.msg.blocks).missing
    ensures BuiltOn(cr, s, AllStored(s0), m)
  {
    var bs := e.msg.blocks;
    var i := ReceiveAllMissing(cr, s.nodes[e.dst], bs, m);
    assert bs[i] in Shipped(e.msg);
    assert Ships(cr, s.nodes[e.src], bs[i]);
    HashesExactly(cr, bs);
    assert HasHash(cr, bs, BlockHash(cr, bs[i]));
    assert MsgBuiltOn(cr, s0, s, e.msg);
    BuiltOnParent(cr, s, AllStored(s0), bs[i]);
  }

  lemma ReplyBuiltOn(cr: Crypto, s0: System, s: System, e: Envelope, msg: Message)
    requires OnlyBuiltOn(cr, s0, s) && AllAlike(s) && e in s.flight && Honest(cr, s, e)
    requires Inv(cr, s.nodes[e.dst]) && Ready(s.nodes[e.dst]) && msg in React(cr, s.nodes[e.dst], e.msg).replies
    ensures MsgBuiltOn(cr, s0, s, msg)
  {
    assert MsgBuiltOn(cr, s0, s, e.msg);
    match e.msg
    case NewBlockHashes(hs) => MissingExactly(s.nodes[e.dst], hs);
    case GetBlocks(hs) =>
      forall h | h in About(cr, msg) ensures h in hs {
        HashesExactly(cr, Stored(s.nodes[e.dst], hs));
        StoredHash(cr, s.nodes[e.dst], hs, h);
      }
    case Blocks(bs) =>
      OnBlocksReplies(cr, s.nodes[e.dst], bs);
      forall h | h in About(cr, msg) ensures BuiltOn(cr, s, AllStored(s0), h) {
        MissingBuiltOn(cr, s0, s, e, h);
      }
    case _ =>
  }

  lemma BroadcastBuiltOn(cr: Crypto, s0: System, s: System, e: Envelope, msg: Message)
    requires OnlyBuiltOn(cr, s0, s) && e in s.flight && Honest(cr, s, e)
    requires Inv(cr, s.nodes[e.dst]) && Ready(s.nodes[e.dst]) && msg in React(cr, s.nodes[e.dst], e.msg).broadcasts
    ensures MsgBuiltOn(cr, s0, s, msg)
  {
    var bs := e.msg.blocks;
    ReceiveAllRelays(cr, s.nodes[e.dst], bs);
    forall h | h in About(cr, msg) ensures BuiltOn(cr, s, AllStored(s0), h) {
      DeliverNewBuiltOn(cr, s0, s, e, h);
    }
  }

  lemma DeliverFlight(cr: Crypto, s0: System, s: System, e: Envelope, s': System)
    requires OnlyBuiltOn(cr, s0, s) && AllAlike(s) && e in s.flight && Honest(cr, s, e)
    requires Inv(cr, s.nodes[e.dst]) && Ready(s.nodes[e.dst]) && e.dst in s.peers
    requires s' == Delivered(cr, s, e) && Progress(s, s') && Ordered(cr, s')
    ensures FlightBuiltOn(cr, s0, s')
  {
    var eff := React(cr, s.nodes[e.dst], e.msg);
    forall w | w in s'.flight ensures MsgBuiltOn(cr, s0, s', w.msg) {
      FlightAfter(Take(s, e), e.dst, e.src, eff, w);
      if w.msg in eff.replies {
        ReplyBuiltOn(cr, s0, s, e, w.msg);
      } else if w.msg in eff.broadcasts {
        BroadcastBuiltOn(cr, s0, s, e, w.msg);
      }
      MsgStays(cr, s0, s, s', w.msg);
    }
  }

  lemma DeliverBuiltOn(cr: Crypto, s0: System, s: System, e: Envelope, s': System)
    requires OnlyBuiltOn(cr, s0, s) && AllAlike(s) && e in s.flight && Honest(cr, s, e)
    requires Inv(cr, s.nodes[e.dst]) && Ready(s.nodes[e.dst]) && e.dst in s.peers
    requires s' == Delivered(cr, s, e) && Progress(s, s') && Ordered(cr, s')
    ensures OnlyBuiltOn(cr, s0, s')
  {
    DeliverFlight(cr, s0, s, e, s');
    forall n, h | n in s'.nodes && n in s0.nodes && h in s'.nodes[n].blocks && h !in s0.nodes[n].blocks
      ensures BuiltOn(cr, s', AllStored(s0), h)
    {
      DeliveredStore(cr, s, e, n);
      if h !in s.nodes[n].blocks {
        DeliverNewBuiltOn(cr, s0, s, e, h);
      }
      BuiltOnStays(cr, s, s', AllStored(s0), h);
    }
    forall n, x: Block | n in s'.nodes && Waiting(s'.nodes[n], x)
      ensures BuiltOn(cr, s', AllStored(s0), BlockHash(cr, x))
    {
      DeliveredStore(cr, s, e, n);
      if n == e.dst {
        DeliverWaitingBuiltOn(cr, s0, s, e, x);
      } else {
        assert Waiting(s.nodes[n], x);
      }
      BuiltOnStays(cr, s, s', AllStored(s0), BlockHash(cr, x));
    }
  }

  // ----- The other steps

  /** Nothing about blocks is new in flight. */
  lemma SameStoresBuiltOn(cr: Crypto, s0: System, s: System, s': System)
    requires OnlyBuiltOn(cr, s0, s) && s'.nodes == s.nodes
    requires forall w :: w in s'.flight ==> w in s.flight || !AboutBlocks(w.msg)
    ensures OnlyBuiltOn(cr, s0, s')
  {
    forall h | BuiltOn(cr, s, AllStored(s0), h) ensures BuiltOn(cr, s', AllStored(s0), h) {
      var m, g :| m in s.nodes && g !in AllStored(s0) && OnPathAt(cr, s.nodes[m], g, h);
      assert OnPathAt(cr, s'.nodes[m], g, h);
    }
    forall w | w in s'.flight ensures MsgBuiltOn(cr, s0, s', w.msg) {
      assert w in s.flight ==> MsgBuiltOn(cr, s0, s, w.msg);
    }
    forall n, x: Block | n in s'.nodes && Waiting(s'.nodes[n], x)
      ensures BuiltOn(cr, s', AllStored(s0), BlockHash(cr, x))
    {
      assert Waiting(s.nodes[n], x);
    }
  }

  /** A block just mined is new, and it is built on itself. */
  lemma MinedIsNew(cr: Crypto, s0: System, s: System, s': System, n: nat, h: H256)
    requires Progress(s0, s) && Unused(s, h) && n in s'.nodes && Inv(cr, s'.nodes[n]) && h in s'.nodes[n].blocks
    ensures BuiltOn(cr, s', AllStored(s0), h)
  {
    PathToIsPath(cr, s'.nodes[n], h);
    assert OnPathAt(cr, s'.nodes[n], h, h);
  }

  lemma MinedMsgBuiltOn(cr: Crypto, s0: System, s: System, n: nat, b: Block, s': System)
    requires Progress(s0, s) && Ordered(cr, s') && n in s'.nodes && BlockHash(cr, b) in s'.nodes[n].blocks
    requires Unused(s, BlockHash(cr, b))
    ensures MsgBuiltOn(cr, s0, s', NewBlockHashes([BlockHash(cr, b)]))
  {
    assert Inv(cr, s'.nodes[n]);
    MinedIsNew(cr, s0, s, s', n, BlockHash(cr, b));
  }

  lemma MineFlight(cr: Crypto, s0: System, s: System, n: nat, b: Block, s': System)
    requires OnlyBuiltOn(cr, s0, s) && Progress(s0, s) && Progress(s, s') && Ordered(cr, s')
    requires n in s.nodes && n in s.peers && CanInsert(s.nodes[n], b) && (Mined(cr, b) ==> Unused(s, BlockHash(cr, b)))
    requires s' == Apply(s, n, n, OnMine(cr, s.nodes[n], b))
    ensures FlightBuiltOn(cr, s0, s')
  {
    forall w | w in s'.flight ensures MsgBuiltOn(cr, s0, s', w.msg) {
      FlightAfter(s, n, n, OnMine(cr, s.nodes[n], b), w);
      if w in s.flight {
        assert MsgBuiltOn(cr, s0, s, w.msg);
        MsgStays(cr, s0, s, s', w.msg);
      } else {
        MinedMsgBuiltOn(cr, s0, s, n, b, s');
      }
    }
  }

  lemma MineNewBuiltOn(cr: Crypto, s0: System, s: System, n: nat, b: Block, s': System, m: nat, h: H256)
    requires NewBuiltOn(cr, s0, s) && Progress(s0, s) && Progress(s, s') && Ordered(cr, s')
    requires n in s.nodes && n in s.peers && CanInsert(s.nodes[n], b) && (Mined(cr, b) ==> Unused(s, BlockHash(cr, b)))
    requires s' == Apply(s, n, n, OnMine(cr, s.nodes[n], b))
    requires m in s'.nodes && m in s0.nodes && h in s'.nodes[m].blocks && h !in s0.nodes[m].blocks
    ensures BuiltOn(cr, s', AllStored(s0), h)
  {
    if h in s.nodes[m].blocks {
      BuiltOnStays(cr, s, s', AllStored(s0), h);
    } else {
      assert Inv(cr, s'.nodes[n]);
      MinedIsNew(cr, s0, s, s', n, h);
    }
  }

  lemma MineBuiltOn(cr: Crypto, s0: System, s: System, n: nat, b: Block, s': System)
    requires OnlyBuiltOn(cr, s0, s) && Progress(s0, s) && Progress(s, s') && Ordered(cr, s')
    requires n in s.nodes && n in s.peers && CanInsert(s.nodes[n], b) && (Mined(cr, b) ==> Unused(s, BlockHash(cr, b)))
    requires s' == Apply(s, n, n, OnMine(cr, s.nodes[n], b))
    ensures OnlyBuiltOn(cr, s0, s')
  {
    MineFlight(cr, s0, s, n, b, s');
    forall m, h | m in s'.nodes && m in s0.nodes && h in s'.nodes[m].blocks && h !in s0.nodes[m].blocks
      ensures BuiltOn(cr, s', AllStored(s0), h)
    {
      MineNewBuiltOn(cr, s0, s, n, b, s', m, h);
    }
    forall m, x: Block | m in s'.nodes && Waiting(s'.nodes[m], x)
      ensures BuiltOn(cr, s', AllStored(s0), BlockHash(cr, x))
    {
      assert Waiting(s.nodes[m], x);
      BuiltOnStays(cr, s, s', AllStored(s0), BlockHash(cr, x));
    }
  }

  lemma {:induction false} StepBuiltOn(cr: Crypto, s0: System, s: System, step: Step, s': System)
    requires OnlyBuiltOn(cr, s0, s) && Progress(s0, s) && AllAlike(s) && Ordered(cr, s) && AllHonest(cr, s)
    requires Next(cr, s, step, s') && Progress(s, s') && Ordered(cr, s')
    ensures OnlyBuiltOn(cr, s0, s')
  {
    match step
    case Deliver(e) =>
      InFlightHonest(cr, s, e);
      assert Inv(cr, s.nodes[e.dst]);
      DeliverBuiltOn(cr, s0, s, e, s');
    case Mine(n, a) => MineBuiltOn(cr, s0, s, n, Candidate(s.nodes[n], a), s');
    case Connect(_, _) => SameStoresBuiltOn(cr, s0, s, s');
    case Drop(_) => SameStoresBuiltOn(cr, s0, s, s');
    case Chat(_) => SameStoresBuiltOn(cr, s0, s, s');
  }

  lemma StepBuiltOnAt(cr: Crypto, s0: System, trace: seq<System>, steps: seq<Step>, k: nat)
    requires Run(cr, trace, steps) && k < |steps| && OnlyBuiltOn(cr, s0, trace[k]) && Progress(s0, trace[k])
    ensures OnlyBuiltOn(cr, s0, trace[k + 1])
  {
    RunAlike(cr, trace, steps, k);
    RunInv(cr, trace, steps, k + 1);
    RunStep(cr, trace, steps, k);
    ProgressTransitive(s0, trace[k], trace[k + 1]);
    StepBuiltOn(cr, s0, trace[k], steps[k], trace[k + 1]);
  }

  lemma {:induction false} RunBuiltOn(cr: Crypto, trace: seq<System>, steps: seq<Step>, j: nat, i: nat)
    requires Run(cr, trace, steps) && j <= i < |trace| && AtRest(trace[j]) && NothingWaits(trace[j])
    ensures OnlyBuiltOn(cr, trace[j], trace[i])
    decreases i - j
  {
    if i == j {
      StartBuiltOn(cr, trace[j]);
    } else {
      var k := i - 1;
      RunBuiltOn(cr, trace, steps, j, k);
      RunProgress(cr, trace, steps, j, k);
      StepBuiltOnAt(cr, trace[j], trace, steps, k);
    }
  }

  /** From any state at rest with empty buffers on: whatever a node comes to store is new since then, or an
      ancestor of something new. */
  lemma OnlyPathsToNewMove(cr: Crypto, trace: seq<System>, steps: seq<Step>, j: nat, i: nat, n: nat, h: H256)
    requires Run(cr, trace, steps) && j <= i < |trace| && AtRest(trace[j]) && NothingWaits(trace[j])
    requires n in trace[i].nodes && h in trace[i].nodes[n].blocks
    ensures n in trace[j].nodes
    ensures h in trace[j].nodes[n].blocks || BuiltOn(cr, trace[i], AllStored(trace[j]), h)
  {
    RunBuiltOn(cr, trace, steps, j, i);
    RunProgress(cr, trace, steps, j, i);
  }

  // ----- Exactly what a late link leaves behind

  /** Node `a` stores everything that any node stores and that is not among `former`. */
  ghost predicate Gathers(s: System, former: set<H256>, a: nat) {
    a in s.nodes && forall m, g {:trigger g in s.nodes[m].blocks} ::
      m in s.nodes && g in s.nodes[m].blocks && g !in former ==> g in s.nodes[a].blocks
  }

  /** Node `a` stores something that is not among `former` and is `h` or built on it. */
  ghost predicate BuiltOnAt(cr: Crypto, s: System, a: nat, former: set<H256>, h: H256)
    requires a in s.nodes
  {
    exists g :: g !in former && OnPathAt(cr, s.nodes[a], g, h)
  }

  lemma BuiltOnIsReached(cr: Crypto, trace: seq<System>, steps: seq<Step>, a: nat, b: nat, j: nat, i: nat, h: H256)
    requires Run(cr, trace, steps) && j <= i < |trace| && Lossless(steps, a, b, j, i) && Quiet(trace[i], a, b)
    requires a in trace[j].nodes && a in trace[j].peers && b in trace[j].peers[a]
    requires a in trace[i].nodes && BuiltOnAt(cr, trace[i], a, AllStored(trace[j]), h)
    ensures b in trace[i].nodes && h in trace[i].nodes[b].blocks
  {
    var g :| g !in AllStored(trace[j]) && OnPathAt(cr, trace[i].nodes[a], g, h);
    CatchesUp(cr, trace, steps, a, b, j, i, g);
  }

  lemma ReachedIsBuiltOn(cr: Crypto, trace: seq<System>, steps: seq<Step>, a: nat, b: nat, j: nat, i: nat, h: H256)
    requires Run(cr, trace, steps) && j <= i < |trace| && AtRest(trace[j]) && NothingWaits(trace[j])
    requires Gathers(trace[i], AllStored(trace[j]), a)
    requires b in trace[j].nodes && b in trace[i].nodes && h in trace[i].nodes[b].blocks
    requires h !in trace[j].nodes[b].blocks
    ensures BuiltOnAt(cr, trace[i], a, AllStored(trace[j]), h)
  {
    var s := trace[i];
    OnlyPathsToNewMove(cr, trace, steps, j, i, b, h);
    var m, g :| m in s.nodes && g !in AllStored(trace[j]) && OnPathAt(cr, s.nodes[m], g, h);
    OneHashOneBlock(cr, trace, steps, i, m, a, g);
    assert OnPathAt(cr, s.nodes[a], g, h);
  }

  /** Let `b` come onto `a`'s list at a rest at which nothing is buffered. At any later rest between them, with
      nothing lost in between, what `a` is ahead of `b` by is exactly what it was ahead by then and what nothing
      new that `a` stores is built on; given that everything new has come to `a`. */
  lemma LeftBehindExactly(cr: Crypto, trace: seq<System>, steps: seq<Step>, a: nat, b: nat, j: nat, i: nat, h: H256)
    requires Run(cr, trace, steps) && j <= i < |trace| && AtRest(trace[j]) && NothingWaits(trace[j])
    requires Lossless(steps, a, b, j, i) && Quiet(trace[i], a, b)
    requires a in trace[j].nodes && a in trace[j].peers && b in trace[j].peers[a]
    requires Gathers(trace[i], AllStored(trace[j]), a)
    ensures b in trace[j].nodes && b in trace[i].nodes
    ensures h in Ahead(trace[i], a, b) <==>
      h in Ahead(trace[j], a, b) && !BuiltOnAt(cr, trace[i], a, AllStored(trace[j]), h)
  {
    QuietInclusion(cr, trace, steps, a, b, j, i);
    if h in Ahead(trace[j], a, b) {
      RunProgress(cr, trace, steps, j, i);
      if BuiltOnAt(cr, trace[i], a, AllStored(trace[j]), h) {
        BuiltOnIsReached(cr, trace, steps, a, b, j, i, h);
      }
      if h in trace[i].nodes[b].blocks {
        ReachedIsBuiltOn(cr, trace, steps, a, b, j, i, h);
      }
    }
  }

  /** Between two nodes on their own everything new does come to both. */
  lemma TwoNodesExactly(cr: Crypto, trace: seq<System>, steps: seq<Step>, a: nat, b: nat, j: nat, i: nat, h: H256)
    requires Run(cr, trace, steps) && j <= i < |trace| && AtRest(trace[j]) && NothingWaits(trace[j])
    requires Lossless(steps, a, b, j, i) && Quiet(trace[i], a, b)
    requires trace[i].nodes.Keys == {a, b} && Joint(trace[j], a, b)
    ensures h in Ahead(trace[i], a, b) <==>
      h in Ahead(trace[j], a, b) && !BuiltOnAt(cr, trace[i], a, AllStored(trace[j]), h)
  {
    QuietInclusion(cr, trace, steps, b, a, j, i);
    forall m, g | m in trace[i].nodes && g in trace[i].nodes[m].blocks && g !in AllStored(trace[j])
      ensures g in trace[i].nodes[a].blocks
    {
      assert m == a || m == b;
      assert g !in Ahead(trace[j], b, a);
      assert g !in Ahead(trace[i], b, a);
    }
    LeftBehindExactly(cr, trace, steps, a, b, j, i, h);
  }
}
