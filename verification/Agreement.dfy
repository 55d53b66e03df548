/** When every message about blocks has been delivered, two linked nodes both store whatever either of them has
    stored since they were linked. Until then, every such block that one of them lacks is being chased: announced,
    asked for, shipped, or waiting at that node for a parent that is being chased. */
module Agreement {
  import opened Hash
  import opened Blocks
  import opened Chains
  import opened Cascades
  import opened Gossip
  import opened Network
  import opened Contents
  import opened Paths

  ghost predicate HasHash(cr: Crypto, bs: seq<Block>, h: H256) {
    exists x :: x in bs && BlockHash(cr, x) == h
  }

  /** This message brings node `b` closer to getting the block `h` from node `a`. */
  ghost predicate Carries(cr: Crypto, e: Envelope, a: nat, b: nat, h: H256) {
    match e.msg
    case NewBlockHashes(hs) => e.src == a && e.dst == b && h in hs
    case GetBlocks(hs) => e.src == b && e.dst == a && h in hs
    case Blocks(bs) => e.src == a && e.dst == b && HasHash(cr, bs, h)
    case _ => false
  }

  /** A message about blocks from one of the two nodes to the other. */
  predicate Concerns(e: Envelope, a: nat, b: nat) {
    AboutBlocks(e.msg) && ((e.src == a && e.dst == b) || (e.src == b && e.dst == a))
  }

  /** Node `b`, whose store is `cb`, has the block or a message about it is in flight. */
  ghost predicate InHand(cr: Crypto, cb: Chain, flight: multiset<Envelope>, a: nat, b: nat, h: H256) {
    h in cb.blocks || exists e :: e in flight && Carries(cr, e, a, b, h)
  }

  /** The block of `a` waits at `b`, and its parent is in hand. */
  ghost predicate Fetching(cr: Crypto, ca: Chain, cb: Chain, flight: multiset<Envelope>, a: nat, b: nat, h: H256)
    requires h in ca.blocks
  {
    h != Root(cr) && Waiting(cb, ca.blocks[h]) && InHand(cr, cb, flight, a, b, ca.blocks[h].header.parent)
  }

  ghost predicate Chased(cr: Crypto, ca: Chain, cb: Chain, flight: multiset<Envelope>, a: nat, b: nat, h: H256)
    requires Tree(cr, ca) && h in ca.blocks
    decreases ca.heights[h]
  {
    || InHand(cr, cb, flight, a, b, h)
    || (h != Root(cr) && Waiting(cb, ca.blocks[h]) &&
        (assert Linked(cr, ca, h); Chased(cr, ca, cb, flight, a, b, ca.blocks[h].header.parent)))
  }

  /** Node `b` chases all blocks of node `a` but those in `former`. */
  ghost predicate AllChased(cr: Crypto, s: System, a: nat, b: nat, former: set<H256>)
    requires a in s.nodes && b in s.nodes && Inv(cr, s.nodes[a])
  {
    forall h :: h in s.nodes[a].blocks && h !in former ==> Chased(cr, s.nodes[a], s.nodes[b], s.flight, a, b, h)
  }

  // ----- A step that keeps what is in hand keeps what is chased

  ghost predicate HandKept(cr: Crypto, ca: Chain, cb: Chain, fl: multiset<Envelope>, cb': Chain,
          fl': multiset<Envelope>, a: nat, b: nat) {
    forall h {:trigger InHand(cr, cb, fl, a, b, h)} :: h in ca.blocks && InHand(cr, cb, fl, a, b, h) ==>
      InHand(cr, cb', fl', a, b, h) || Fetching(cr, ca, cb', fl', a, b, h)
  }

  ghost predicate WaitKept(cr: Crypto, cb: Chain, cb': Chain) {
    forall x: Block {:trigger Waiting(cb, x)} :: Waiting(cb, x) ==> Settled(cr, cb', x)
  }

  lemma {:induction false} ChasedKept(cr: Crypto, ca: Chain, cb: Chain, fl: multiset<Envelope>, ca': Chain,
          cb': Chain, fl': multiset<Envelope>,
                                      a: nat, b: nat, h: H256)
    requires Tree(cr, ca) && Tree(cr, ca') && Grows(ca, ca') && h in ca.blocks
    requires HandKept(cr, ca, cb, fl, cb', fl', a, b) && WaitKept(cr, cb, cb')
    requires Chased(cr, ca, cb, fl, a, b, h)
    ensures Chased(cr, ca', cb', fl', a, b, h)
    decreases ca.heights[h]
  {
    var x := ca.blocks[h];
    if InHand(cr, cb, fl, a, b, h) {
      if !InHand(cr, cb', fl', a, b, h) {
        assert Fetching(cr, ca, cb', fl', a, b, h);
        assert Linked(cr, ca, h) && Linked(cr, ca', h);
      }
    } else {
      assert Linked(cr, ca, h) && Linked(cr, ca', h);
      ChasedKept(cr, ca, cb, fl, ca', cb', fl', a, b, x.header.parent);
      assert Settled(cr, cb', x);
    }
  }

  /** Nothing in flight brings node `b` closer to any block of node `a`. */
  ghost predicate Silent(cr: Crypto, fl: multiset<Envelope>, a: nat, b: nat) {
    forall e, h {:trigger Carries(cr, e, a, b, h)} :: e in fl ==> !Carries(cr, e, a, b, h)
  }

  /** Then what is chased is stored. */
  lemma {:induction false} QuietMeansStored(cr: Crypto, ca: Chain, cb: Chain, fl: multiset<Envelope>, a: nat, b: nat,
          h: H256)
    requires Tree(cr, ca) && Buffer(cr, cb) && h in ca.blocks
    requires Silent(cr, fl, a, b) && Chased(cr, ca, cb, fl, a, b, h)
    ensures h in cb.blocks
    decreases ca.heights[h]
  {
    if InHand(cr, cb, fl, a, b, h) {
    } else {
      assert Linked(cr, ca, h);
      QuietMeansStored(cr, ca, cb, fl, a, b, ca.blocks[h].header.parent);
    }
  }

  // ----- What a delivery does to what is in hand

  /** The messages with which `n` answers `from` are in flight. */
  ghost predicate AllSent(fl: multiset<Envelope>, n: nat, from: nat, msgs: seq<Message>) {
    forall msg :: msg in msgs ==> Envelope(n, from, msg) in fl
  }

  /** The announcement has arrived: the block is asked for. */
  lemma AnnouncedIsRequested(cr: Crypto, cb: Chain, hs: seq<H256>, h: H256, fl: multiset<Envelope>, a: nat, b: nat)
    requires h in hs && AllSent(fl, b, a, OnNewBlockHashes(cb, hs).replies)
    ensures InHand(cr, cb, fl, a, b, h)
  {
    MissingExactly(cb, hs);
    if h !in cb.blocks {
      assert Carries(cr, Envelope(b, a, GetBlocks(Missing(cb, hs))), a, b, h);
    }
  }

  /** The request has arrived: the block is shipped. */
  lemma RequestedIsShipped(cr: Crypto, ca: Chain, cb: Chain, hs: seq<H256>, h: H256, fl: multiset<Envelope>, a: nat,
          b: nat)
    requires Inv(cr, ca) && h in hs && h in ca.blocks && AllSent(fl, a, b, OnGetBlocks(ca, hs).replies)
    ensures InHand(cr, cb, fl, a, b, h)
  {
    StoredExactly(ca, hs);
    assert ca.blocks[h] in Stored(ca, hs);
    assert h != Root(cr) ==> Linked(cr, ca, h);
    assert Carries(cr, Envelope(a, b, Blocks(Stored(ca, hs))), a, b, h);
  }

  /** The block has arrived: it is stored, or it waits and its parent is asked for. */
  lemma ShippedIsHandled(cr: Crypto, ca: Chain, cb: Chain, bs: seq<Block>, h: H256, fl: multiset<Envelope>, a: nat,
          b: nat)
    requires Inv(cr, ca) && Inv(cr, cb) && Ready(cb) && h in ca.blocks
    requires HasHash(cr, bs, h) && forall x :: x in bs ==> Ships(cr, ca, x)
    requires var missing := ReceiveAll(cr, cb, bs).missing; missing != [] ==> Envelope(b, a, GetBlocks(missing)) in fl
    ensures var cb' := OnBlocks(cr, cb, bs).chain; InHand(cr, cb', fl, a, b, h) || Fetching(cr, ca, cb', fl, a, b, h)
  {
    var t := ReceiveAll(cr, cb, bs);
    var x :| x in bs && BlockHash(cr, x) == h;
    assert Ships(cr, ca, x);
    ReceiveAllInv(cr, cb, bs);
    ReceiveAllSettles(cr, cb, bs, x);
    if h !in t.chain.blocks {
      assert Linked(cr, ca, h);
      assert Carries(cr, Envelope(b, a, GetBlocks(t.missing)), a, b, x.header.parent);
    }
  }

  /** What is in flight after the delivery of `e` to `n` and its reaction. */
  lemma AfterDelivery(s: System, e: Envelope, n: nat, from: nat, eff: Effects, w: Envelope)
    requires n in s.peers
    ensures var fl := Apply(Take(s, e), n, from, eff).flight;
      && AllSent(fl, n, from, eff.replies)
      && (w in s.flight && w != e ==> w in fl)
      && (w.src == n && w.dst in s.peers[n] && w.msg in eff.broadcasts ==> w in fl)
  {
    FlightAfter(Take(s, e), n, from, eff, w);
    forall msg | msg in eff.replies ensures Envelope(n, from, msg) in Apply(Take(s, e), n, from, eff).flight {
      FlightAfter(Take(s, e), n, from, eff, Envelope(n, from, msg));
    }
  }

  /** The message that brought the block closer has been delivered. */
  lemma CarrierDelivered(cr: Crypto, ca: Chain, cb: Chain, e: Envelope, a: nat, b: nat, h: H256, fl: multiset<Envelope>)
    requires Inv(cr, ca) && Inv(cr, cb) && Ready(ca) && Ready(cb) && h in ca.blocks && a != b
    requires Carries(cr, e, a, b, h) && forall x :: x in Shipped(e.msg) ==> Ships(cr, ca, x)
    requires AllSent(fl, e.dst, e.src, React(cr, if e.dst == a then ca else cb, e.msg).replies)
    ensures var cb' := if e.dst == b then React(cr, cb, e.msg).chain else cb;
      InHand(cr, cb', fl, a, b, h) || Fetching(cr, ca, cb', fl, a, b, h)
  {
    match e.msg
    case NewBlockHashes(hs) => AnnouncedIsRequested(cr, cb, hs, h, fl, a, b);
    case GetBlocks(hs) => RequestedIsShipped(cr, ca, cb, hs, h, fl, a, b);
    case Blocks(bs) =>
      OnBlocksReplies(cr, cb, bs);
      ShippedIsHandled(cr, ca, cb, bs, h, fl, a, b);
    case _ =>
  }

  /** Everything in hand before a delivery is in hand after it, or waits with its parent in hand. */
  lemma {:induction false} DeliverHand(cr: Crypto, s: System, e: Envelope, a: nat, b: nat, h: H256)
    requires SysInv(cr, s) && Honest(cr, s, e) && a in s.nodes && b in s.nodes && a != b && h in s.nodes[a].blocks
    requires Ready(s.nodes[e.dst]) && InHand(cr, s.nodes[b], s.flight, a, b, h)
    ensures var cb' := if b == e.dst then React(cr, s.nodes[b], e.msg).chain else s.nodes[b];
      InHand(cr, cb', Delivered(cr, s, e).flight, a, b, h)
        || Fetching(cr, s.nodes[a], cb', Delivered(cr, s, e).flight, a, b, h)
  {
    var fl := Delivered(cr, s, e).flight;
    if h in s.nodes[b].blocks {
      if b == e.dst {
        ReactInv(cr, s.nodes[b], e.msg);
      }
    } else {
      var w :| w in s.flight && Carries(cr, w, a, b, h);
      AfterDelivery(s, e, e.dst, e.src, React(cr, s.nodes[e.dst], e.msg), w);
      if w == e {
        InvReady(cr, s.nodes[a]);
        InvReady(cr, s.nodes[b]);
        CarrierDelivered(cr, s.nodes[a], s.nodes[b], e, a, b, h, fl);
      }
    }
  }

  lemma ReactSettles(cr: Crypto, c: Chain, msg: Message, x: Block)
    requires Inv(cr, c) && Ready(c) && Waiting(c, x)
    ensures Settled(cr, React(cr, c, msg).chain, x)
  {
    if msg.Blocks? {
      ReceiveAllSettles(cr, c, msg.blocks, x);
    }
  }

  /** A block newly stored at a node is announced to each of its peers. */
  lemma ReactAnnounces(cr: Crypto, c: Chain, msg: Message, h: H256) returns (hs: seq<H256>)
    requires Inv(cr, c) && Ready(c) && h in React(cr, c, msg).chain.blocks && h !in c.blocks
    ensures h in hs && NewBlockHashes(hs) in React(cr, c, msg).broadcasts
  {
    ReceiveAllRelays(cr, c, msg.blocks);
    hs := ReceiveAll(cr, c, msg.blocks).relay;
  }

  lemma {:induction false} DeliverNew(cr: Crypto, s: System, e: Envelope, a: nat, b: nat, h: H256)
    requires SysInv(cr, s) && e.dst in s.nodes && Ready(s.nodes[e.dst]) && a in s.nodes && b in s.peers[a]
    requires a == e.dst && h in React(cr, s.nodes[a], e.msg).chain.blocks && h !in s.nodes[a].blocks
    ensures exists w :: w in Delivered(cr, s, e).flight && Carries(cr, w, a, b, h)
  {
    var hs := ReactAnnounces(cr, s.nodes[a], e.msg, h);
    var w := Envelope(a, b, NewBlockHashes(hs));
    AfterDelivery(s, e, a, e.src, React(cr, s.nodes[a], e.msg), w);
    assert Carries(cr, w, a, b, h);
  }

  // ----- Every step but a loss keeps everything chased

  lemma {:induction false} AssembleChased(cr: Crypto, s: System, s': System, a: nat, b: nat, former: set<H256>)
    requires a in s.nodes && b in s.nodes && Progress(s, s') && Inv(cr, s.nodes[a]) && Inv(cr, s'.nodes[a])
    requires AllChased(cr, s, a, b, former)
    requires HandKept(cr, s.nodes[a], s.nodes[b], s.flight, s'.nodes[b], s'.flight, a, b)
    requires WaitKept(cr, s.nodes[b], s'.nodes[b])
    requires forall h :: h in s'.nodes[a].blocks && h !in s.nodes[a].blocks ==>
      InHand(cr, s'.nodes[b], s'.flight, a, b, h)
    ensures AllChased(cr, s', a, b, former)
  {
    forall h | h in s'.nodes[a].blocks && h !in former
      ensures Chased(cr, s'.nodes[a], s'.nodes[b], s'.flight, a, b, h)
    {
      if h in s.nodes[a].blocks {
        ChasedKept(cr, s.nodes[a], s.nodes[b], s.flight, s'.nodes[a], s'.nodes[b], s'.flight, a, b, h);
      }
    }
  }

  lemma {:induction false} DeliverChased(cr: Crypto, s: System, e: Envelope, a: nat, b: nat, former: set<H256>)
    requires SysInv(cr, s) && Honest(cr, s, e) && Ready(s.nodes[e.dst]) && a in s.nodes && b in s.peers[a] && a != b
    requires SysInv(cr, Delivered(cr, s, e)) && Progress(s, Delivered(cr, s, e)) && AllChased(cr, s, a, b, former)
    ensures AllChased(cr, Delivered(cr, s, e), a, b, former)
  {
    var s' := Delivered(cr, s, e);
    DeliveredStore(cr, s, e, a);
    DeliveredStore(cr, s, e, b);
    forall h | h in s.nodes[a].blocks && InHand(cr, s.nodes[b], s.flight, a, b, h)
      ensures InHand(cr, s'.nodes[b], s'.flight, a, b, h) || Fetching(cr, s.nodes[a], s'.nodes[b], s'.flight, a, b, h)
    {
      DeliverHand(cr, s, e, a, b, h);
    }
    forall x: Block | Waiting(s.nodes[b], x) ensures Settled(cr, s'.nodes[b], x) {
      if b == e.dst {
        ReactSettles(cr, s.nodes[b], e.msg, x);
      }
    }
    forall h | h in s'.nodes[a].blocks && h !in s.nodes[a].blocks ensures InHand(cr, s'.nodes[b], s'.flight, a, b, h) {
      DeliverNew(cr, s, e, a, b, h);
    }
    AssembleChased(cr, s, s', a, b, former);
  }

  /** What a step leaves in flight it leaves in hand. */
  lemma HandStays(cr: Crypto, ca: Chain, cb: Chain, fl: multiset<Envelope>, cb': Chain, fl': multiset<Envelope>,
          a: nat, b: nat)
    requires Grows(cb, cb') && forall w :: w in fl && Concerns(w, a, b) ==> w in fl'
    ensures HandKept(cr, ca, cb, fl, cb', fl', a, b)
  {
    forall h | h in ca.blocks && InHand(cr, cb, fl, a, b, h) ensures InHand(cr, cb', fl', a, b, h) {
      if h !in cb.blocks {
        var w :| w in fl && Carries(cr, w, a, b, h);
        assert Concerns(w, a, b) && w in fl';
      }
    }
  }

  lemma WaitStays(cr: Crypto, cb: Chain, cb': Chain)
    requires cb'.orphans == cb.orphans
    ensures WaitKept(cr, cb, cb')
  {
    forall x: Block | Waiting(cb, x) ensures Settled(cr, cb', x) {
      assert Waiting(cb', x);
    }
  }

  /** After mining, the buffers are as before, nothing in flight is gone, and the new block is announced. */
  lemma AfterMining(cr: Crypto, s: System, n: nat, b: Block, w: Envelope)
    requires n in s.nodes && n in s.peers && CanInsert(s.nodes[n], b)
    ensures var s' := Apply(s, n, n, OnMine(cr, s.nodes[n], b));
      && (w in s.flight ==> w in s'.flight)
      && (forall m :: m in s.nodes ==> m in s'.nodes && s'.nodes[m].orphans == s.nodes[m].orphans)
      && (forall m, h :: m in s.nodes && h in s'.nodes[m].blocks && h !in s.nodes[m].blocks ==>
        m == n && forall p :: p in s.peers[n] ==> Envelope(n, p, NewBlockHashes([h])) in s'.flight)
  {
    var eff := OnMine(cr, s.nodes[n], b);
    FlightAfter(s, n, n, eff, w);
    forall p | p in s.peers[n] && Mined(cr, b)
      ensures Envelope(n, p, NewBlockHashes([BlockHash(cr, b)])) in Apply(s, n, n, eff).flight
    {
      FlightAfter(s, n, n, eff, Envelope(n, p, NewBlockHashes([BlockHash(cr, b)])));
    }
  }

  lemma {:induction false} MineChased(cr: Crypto, s: System, n: nat, attempt: Attempt, a: nat, b: nat,
          former: set<H256>)
    requires SysInv(cr, s) && n in s.nodes && Ready(s.nodes[n]) && a in s.nodes && b in s.peers[a]
    requires var s' := Apply(s, n, n, OnMine(cr, s.nodes[n], Candidate(s.nodes[n], attempt)));
      SysInv(cr, s') && Progress(s, s')
    requires AllChased(cr, s, a, b, former)
    ensures AllChased(cr, Apply(s, n, n, OnMine(cr, s.nodes[n], Candidate(s.nodes[n], attempt))), a, b, former)
  {
    var x := Candidate(s.nodes[n], attempt);
    var s' := Apply(s, n, n, OnMine(cr, s.nodes[n], x));
    forall w: Envelope ensures w in s.flight ==> w in s'.flight {
      AfterMining(cr, s, n, x, w);
    }
    AfterMining(cr, s, n, x, Envelope(a, b, NewBlockHashes([])));
    HandStays(cr, s.nodes[a], s.nodes[b], s.flight, s'.nodes[b], s'.flight, a, b);
    WaitStays(cr, s.nodes[b], s'.nodes[b]);
    forall h | h in s'.nodes[a].blocks && h !in s.nodes[a].blocks ensures InHand(cr, s'.nodes[b], s'.flight, a, b, h) {
      assert Carries(cr, Envelope(a, b, NewBlockHashes([h])), a, b, h);
    }
    AssembleChased(cr, s, s', a, b, former);
  }

  /** As long as no message about blocks between the two is lost. */
  lemma StoresSame(cr: Crypto, s: System, s': System, a: nat, b: nat, former: set<H256>)
    requires a in s.nodes && b in s.nodes && s'.nodes == s.nodes && Inv(cr, s.nodes[a])
    requires forall w :: w in s.flight && Concerns(w, a, b) ==> w in s'.flight
    requires AllChased(cr, s, a, b, former)
    ensures AllChased(cr, s', a, b, former)
  {
    var ca, cb := s.nodes[a], s.nodes[b];
    HandStays(cr, ca, cb, s.flight, cb, s'.flight, a, b);
    WaitStays(cr, cb, cb);
    forall h | h in ca.blocks && h !in former ensures Chased(cr, ca, cb, s'.flight, a, b, h) {
      ChasedKept(cr, ca, cb, s.flight, ca, cb, s'.flight, a, b, h);
    }
  }

  lemma QuietStepChased(cr: Crypto, s: System, step: Step, s': System, a: nat, b: nat, former: set<H256>)
    requires Next(cr, s, step, s') && (step.Connect? || step.Drop? || step.Chat?)
    requires step.Drop? ==> !Concerns(step.lost, a, b)
    requires PeersKnown(s) && a in s.nodes && b in s.nodes && a in s.peers && b in s.peers[a] && Inv(cr, s.nodes[a])
    requires AllChased(cr, s, a, b, former)
    ensures s'.nodes == s.nodes && a in s'.peers && b in s'.peers[a]
    ensures AllChased(cr, s', a, b, former)
  {
    if step.Connect? {
      ConnectKnown(s, step.a, step.b);
    }
    forall w | w in s.flight && Concerns(w, a, b) ensures w in s'.flight {
      if step.Drop? {
        assert w != step.lost;
      }
    }
    StoresSame(cr, s, s', a, b, former);
  }

  lemma {:induction false} StepChased(cr: Crypto, s: System, step: Step, s': System, a: nat, b: nat, former: set<H256>)
    requires SysInv(cr, s) && SysInv(cr, s') && Progress(s, s') && Next(cr, s, step, s')
    requires step.Drop? ==> !Concerns(step.lost, a, b)
    requires a in s.nodes && b in s.peers[a] && a != b && AllChased(cr, s, a, b, former)
    ensures b in s'.peers[a] && AllChased(cr, s', a, b, former)
  {
    match step
    case Deliver(e) =>
      InFlightHonest(cr, s, e);
      DeliverChased(cr, s, e, a, b, former);
    case Mine(n, attempt) => MineChased(cr, s, n, attempt, a, b, former);
    case Connect(_, _) => QuietStepChased(cr, s, step, s', a, b, former);
    case Drop(_) => QuietStepChased(cr, s, step, s', a, b, former);
    case Chat(_) => QuietStepChased(cr, s, step, s', a, b, former);
  }

  /** From step `j` until state `i` no message about blocks between the two nodes is lost. */
  ghost predicate Lossless(steps: seq<Step>, a: nat, b: nat, j: nat, i: nat) {
    forall k :: j <= k < i && k < |steps| && steps[k].Drop? ==> !Concerns(steps[k].lost, a, b)
  }

  /** No message about blocks is in flight between the two nodes. */
  ghost predicate Quiet(s: System, a: nat, b: nat) {
    forall e :: e in s.flight ==> !Concerns(e, a, b)
  }

  /** No message about blocks is in flight. */
  ghost predicate AtRest(s: System) {
    forall e :: e in s.flight ==> !AboutBlocks(e.msg)
  }

  /** What node `a` stores and node `b` does not. */
  ghost function Ahead(s: System, a: nat, b: nat): set<H256>
    requires a in s.nodes && b in s.nodes
  {
    s.nodes[a].blocks.Keys - s.nodes[b].blocks.Keys
  }

  lemma StartChased(cr: Crypto, s: System, a: nat, b: nat)
    requires SysInv(cr, s) && a in s.nodes && b in s.nodes
    ensures AllChased(cr, s, a, b, Ahead(s, a, b))
  {
    assert Inv(cr, s.nodes[a]);
    forall h | h in s.nodes[a].blocks && h !in Ahead(s, a, b)
      ensures Chased(cr, s.nodes[a], s.nodes[b], s.flight, a, b, h)
    {
      assert InHand(cr, s.nodes[b], s.flight, a, b, h);
    }
  }

  /** From any moment at which `b` is on `a`'s list, everything but what `a` was ahead by then is chased. */
  lemma {:induction false} RunChased(cr: Crypto, trace: seq<System>, steps: seq<Step>, a: nat, b: nat, j: nat, i: nat)
    requires Run(cr, trace, steps) && j <= i < |trace| && Lossless(steps, a, b, j, i)
    requires a in trace[j].nodes && a in trace[j].peers && b in trace[j].peers[a] && a != b
    ensures SysInv(cr, trace[j]) && SysInv(cr, trace[i]) && b in trace[j].nodes
    ensures a in trace[i].nodes && a in trace[i].peers && b in trace[i].peers[a] && b in trace[i].nodes
    ensures AllChased(cr, trace[i], a, b, Ahead(trace[j], a, b))
    decreases i - j
  {
    RunInv(cr, trace, steps, j);
    RunInv(cr, trace, steps, i);
    if i == j {
      StartChased(cr, trace[j], a, b);
    } else {
      var k := i - 1;
      RunChased(cr, trace, steps, a, b, j, k);
      StepOfRun(cr, trace, steps, k);
      NextInv(cr, trace[k], steps[k], trace[i]);
      StepChased(cr, trace[k], steps[k], trace[i], a, b, Ahead(trace[j], a, b));
    }
  }

  // ----- Agreement

  lemma QuietIsSilent(cr: Crypto, s: System, a: nat, b: nat)
    requires Quiet(s, a, b)
    ensures Silent(cr, s.flight, a, b)
  {
    forall e, h | e in s.flight ensures !Carries(cr, e, a, b, h) {
      assert !Concerns(e, a, b);
    }
  }

  /** Once nothing about blocks is in flight between them, `b` stores everything that `a` stores, except perhaps
      what `a` was ahead by at some moment at which they were linked, since when nothing between them has been
      lost. */
  lemma QuietInclusion(cr: Crypto, trace: seq<System>, steps: seq<Step>, a: nat, b: nat, j: nat, i: nat)
    requires Run(cr, trace, steps) && j <= i < |trace| && Lossless(steps, a, b, j, i) && Quiet(trace[i], a, b)
    requires a in trace[j].nodes && a in trace[j].peers && b in trace[j].peers[a]
    ensures b in trace[j].nodes && a in trace[i].nodes && b in trace[i].nodes
    ensures Ahead(trace[i], a, b) <= Ahead(trace[j], a, b)
  {
    RunNodes(cr, trace, steps, j);
    RunNodes(cr, trace, steps, i);
    if a != b {
      RunChased(cr, trace, steps, a, b, j, i);
      var s := trace[i];
      assert Inv(cr, s.nodes[a]) && Inv(cr, s.nodes[b]);
      forall h | h in s.nodes[a].blocks && h !in Ahead(trace[j], a, b) ensures h in s.nodes[b].blocks {
        QuietIsSilent(cr, s, a, b);
        QuietMeansStored(cr, s.nodes[a], s.nodes[b], s.flight, a, b, h);
      }
    }
  }

  /** Two nodes, each in the other's list. */
  predicate Joint(s: System, a: nat, b: nat) {
    a in s.nodes && b in s.nodes && a in s.peers && b in s.peers && b in s.peers[a] && a in s.peers[b]
  }

  /** Connecting two nodes links them, takes no link away, and touches no other list, store or message. */
  lemma ConnectLinks(cr: Crypto, s: System, a: nat, b: nat, s': System)
    requires Next(cr, s, Step.Connect(a, b), s')
    ensures Joint(s', a, b) && s'.nodes == s.nodes && s'.flight == s.flight && s'.peers.Keys == s.peers.Keys
    ensures forall n, p :: n in s.peers ==>
      (p in s'.peers[n] <==> p in s.peers[n] || (n == a && p == b) || (n == b && p == a))
  {
  }

  /** They store the same hashes. */
  predicate Agree(s: System, a: nat, b: nat) {
    a in s.nodes && b in s.nodes && s.nodes[a].blocks.Keys == s.nodes[b].blocks.Keys
  }

  /** Nodes of a run that store the same hashes have the same store. */
  lemma AgreeIsSame(cr: Crypto, trace: seq<System>, steps: seq<Step>, i: nat, a: nat, b: nat)
    requires Run(cr, trace, steps) && i < |trace| && Agree(trace[i], a, b)
    ensures SameStore(trace[i].nodes[a], trace[i].nodes[b])
  {
    RunInv(cr, trace, steps, i);
    RunAlike(cr, trace, steps, i);
    assert Inv(cr, trace[i].nodes[a]) && Inv(cr, trace[i].nodes[b]) && Alike(trace[i].nodes[a], trace[i].nodes[b]);
    AlikeIsSame(cr, trace[i].nodes[a], trace[i].nodes[b]);
  }

  /** Two nodes are linked at state `j`, nothing about blocks between them is lost afterwards, and nothing of the
      kind is in flight at state `i`. Then each stores whatever the other has come to store since `j`. If they
      stored the same at `j` they do so now: the same blocks, heights and states, and tips of one height. */
  lemma QuiescentAgreement(cr: Crypto, trace: seq<System>, steps: seq<Step>, a: nat, b: nat, j: nat, i: nat)
    requires Run(cr, trace, steps) && j <= i < |trace| && Lossless(steps, a, b, j, i)
    requires Joint(trace[j], a, b) && Quiet(trace[i], a, b)
    ensures a in trace[i].nodes && b in trace[i].nodes
    ensures trace[i].nodes[a].blocks.Keys - trace[j].nodes[a].blocks.Keys <= trace[i].nodes[b].blocks.Keys
    ensures trace[i].nodes[b].blocks.Keys - trace[j].nodes[b].blocks.Keys <= trace[i].nodes[a].blocks.Keys
    ensures Agree(trace[j], a, b) ==> Agree(trace[i], a, b) && SameStore(trace[i].nodes[a], trace[i].nodes[b])
  {
    QuietInclusion(cr, trace, steps, a, b, j, i);
    QuietInclusion(cr, trace, steps, b, a, j, i);
    InclusionsMeet(trace[j], trace[i], a, b);
    if Agree(trace[j], a, b) {
      AgreeIsSame(cr, trace, steps, i, a, b);
    }
  }

  lemma InclusionsMeet(s: System, s': System, a: nat, b: nat)
    requires a in s.nodes && b in s.nodes && a in s'.nodes && b in s'.nodes
    requires Ahead(s', a, b) <= Ahead(s, a, b) && Ahead(s', b, a) <= Ahead(s, b, a)
    ensures s'.nodes[a].blocks.Keys - s.nodes[a].blocks.Keys <= s'.nodes[b].blocks.Keys
    ensures s'.nodes[b].blocks.Keys - s.nodes[b].blocks.Keys <= s'.nodes[a].blocks.Keys
    ensures Agree(s, a, b) ==> Agree(s', a, b)
  {
    forall h | h in s'.nodes[a].blocks && h !in s.nodes[a].blocks ensures h in s'.nodes[b].blocks {
      assert h !in Ahead(s', a, b);
    }
    forall h | h in s'.nodes[b].blocks && h !in s.nodes[b].blocks ensures h in s'.nodes[a].blocks {
      assert h !in Ahead(s', b, a);
    }
    if Agree(s, a, b) {
      assert Ahead(s', a, b) == {} && Ahead(s', b, a) == {};
      forall h ensures h in s'.nodes[a].blocks <==> h in s'.nodes[b].blocks {
        assert h !in Ahead(s', a, b) && h !in Ahead(s', b, a);
      }
    }
  }

  /** For a link between nodes at rest this is exact: the two agree at every later rest if and only if they
      stored the same when they were linked. */
  lemma LinkedAtRestIff(cr: Crypto, trace: seq<System>, steps: seq<Step>, a: nat, b: nat, j: nat)
    requires Run(cr, trace, steps) && j < |trace| && Lossless(steps, a, b, j, |steps|)
    requires Joint(trace[j], a, b) && Quiet(trace[j], a, b)
    ensures Agree(trace[j], a, b) <==> forall i :: j <= i < |trace| && Quiet(trace[i], a, b) ==> Agree(trace[i], a, b)
  {
    if Agree(trace[j], a, b) {
      forall i | j <= i < |trace| && Quiet(trace[i], a, b) ensures Agree(trace[i], a, b) {
        QuiescentAgreement(cr, trace, steps, a, b, j, i);
      }
    }
  }

  // ----- Paths of links

  /** The two nodes are linked at state `j`, and nothing about blocks between them is lost until state `i`. */
  ghost predicate Link(trace: seq<System>, steps: seq<Step>, a: nat, b: nat, j: nat, i: nat) {
    j <= i < |trace| && Lossless(steps, a, b, j, i) && Joint(trace[j], a, b)
  }

  /** Each node of `p` is linked to the one before it at its own time. */
  ghost predicate LinkedPath(trace: seq<System>, steps: seq<Step>, p: seq<nat>, times: seq<nat>, i: nat) {
    && p != [] && |times| == |p| && i < |trace| && p[0] in trace[i].nodes
    && forall k :: 0 < k < |p| ==> Link(trace, steps, Before(p, k), p[k], times[k], i)
  }

  function Before(p: seq<nat>, i: nat): nat
    requires 0 < i < |p|
  {
    p[i - 1]
  }

  lemma LinkedPrefix(trace: seq<System>, steps: seq<Step>, p: seq<nat>, times: seq<nat>, i: nat)
    requires LinkedPath(trace, steps, p, times, i) && |p| > 1
    ensures LinkedPath(trace, steps, p[..|p| - 1], times[..|p| - 1], i)
  {
    var q := p[..|p| - 1];
    forall k | 0 < k < |q| ensures Link(trace, steps, Before(q, k), q[k], times[..|q|][k], i) {
      assert Link(trace, steps, Before(p, k), p[k], times[k], i);
    }
  }

  /** No node of the path was ahead of the next one by `h` when they were linked. */
  ghost predicate NotAhead(trace: seq<System>, p: seq<nat>, times: seq<nat>, h: H256)
    requires |times| == |p|
  {
    forall k :: 0 < k < |p| ==>
      && times[k] < |trace| && Before(p, k) in trace[times[k]].nodes && p[k] in trace[times[k]].nodes
      && h !in Ahead(trace[times[k]], Before(p, k), p[k])
  }

  lemma NotAheadPrefix(trace: seq<System>, p: seq<nat>, times: seq<nat>, h: H256)
    requires |times| == |p| > 1 && NotAhead(trace, p, times, h)
    ensures NotAhead(trace, p[..|p| - 1], times[..|p| - 1], h)
  {
    var q := p[..|p| - 1];
    forall k | 0 < k < |q| ensures h !in Ahead(trace[times[k]], Before(q, k), q[k]) {
      assert h !in Ahead(trace[times[k]], Before(p, k), p[k]);
    }
  }

  /** Over one link. */
  lemma LinkCarries(cr: Crypto, trace: seq<System>, steps: seq<Step>, a: nat, b: nat, j: nat, i: nat, h: H256)
    requires Run(cr, trace, steps) && Link(trace, steps, a, b, j, i) && AtRest(trace[i])
    requires h !in Ahead(trace[j], a, b) && a in trace[i].nodes && h in trace[i].nodes[a].blocks
    ensures b in trace[i].nodes && h in trace[i].nodes[b].blocks
  {
    QuietInclusion(cr, trace, steps, a, b, j, i);
    assert h !in Ahead(trace[i], a, b);
  }

  /** At rest, what the first node of a linked path stores has reached the last one, unless some node on the
      way was ahead of the next one by it when they were linked. */
  lemma {:induction false} PathInclusion(cr: Crypto, trace: seq<System>, steps: seq<Step>, p: seq<nat>,
          times: seq<nat>, i: nat, h: H256)
    requires Run(cr, trace, steps) && LinkedPath(trace, steps, p, times, i) && AtRest(trace[i])
    requires h in trace[i].nodes[p[0]].blocks && NotAhead(trace, p, times, h)
    ensures p[|p| - 1] in trace[i].nodes && h in trace[i].nodes[p[|p| - 1]].blocks
    decreases |p|
  {
    if |p| == 1 {
    } else {
      var q, n := p[..|p| - 1], |p| - 1;
      LinkedPrefix(trace, steps, p, times, i);
      NotAheadPrefix(trace, p, times, h);
      PathInclusion(cr, trace, steps, q, times[..n], i, h);
      assert Link(trace, steps, Before(p, n), p[n], times[n], i);
      LinkCarries(cr, trace, steps, Before(p, n), p[n], times[n], i, h);
    }
  }

  /** Each link of the path was made between nodes that stored the same. */
  ghost predicate AlikeWhenLinked(trace: seq<System>, p: seq<nat>, times: seq<nat>)
    requires |times| == |p|
  {
    forall k :: 0 < k < |p| ==> times[k] < |trace| && Agree(trace[times[k]], Before(p, k), p[k])
  }

  /** So the whole of a network has one store at rest that is connected by links made, at whatever time, between nodes
      that stored the same. */
  lemma {:induction false} NetworkAgreement(cr: Crypto, trace: seq<System>, steps: seq<Step>, p: seq<nat>,
          times: seq<nat>, i: nat)
    requires Run(cr, trace, steps) && LinkedPath(trace, steps, p, times, i) && AtRest(trace[i])
    requires AlikeWhenLinked(trace, p, times)
    ensures Agree(trace[i], p[0], p[|p| - 1])
    ensures SameStore(trace[i].nodes[p[0]], trace[i].nodes[p[|p| - 1]])
    decreases |p|
  {
    PathAgrees(cr, trace, steps, p, times, i);
    AgreeIsSame(cr, trace, steps, i, p[0], p[|p| - 1]);
  }

  lemma {:induction false} PathAgrees(cr: Crypto, trace: seq<System>, steps: seq<Step>, p: seq<nat>, times: seq<nat>,
          i: nat)
    requires Run(cr, trace, steps) && LinkedPath(trace, steps, p, times, i) && AtRest(trace[i])
    requires AlikeWhenLinked(trace, p, times)
    ensures Agree(trace[i], p[0], p[|p| - 1])
    decreases |p|
  {
    if |p| == 1 {
    } else {
      var q, n := p[..|p| - 1], |p| - 1;
      LinkedPrefix(trace, steps, p, times, i);
      forall k | 0 < k < |q| ensures Agree(trace[times[k]], Before(q, k), q[k]) {
        assert Agree(trace[times[k]], Before(p, k), p[k]);
      }
      PathAgrees(cr, trace, steps, q, times[..n], i);
      assert Link(trace, steps, Before(p, n), p[n], times[n], i);
      assert Agree(trace[times[n]], Before(p, n), p[n]);
      QuiescentAgreement(cr, trace, steps, Before(p, n), p[n], times[n], i);
    }
  }

  /** The stores must be alike when a link is made, because connecting announces nothing: two nodes, of which
      one mines before they are linked, are at rest afterwards and store different blocks. */
  lemma LateLinksCanDisagree(cr: Crypto, s: System, attempt: Attempt) returns (trace: seq<System>, steps: seq<Step>)
    requires Initial(cr, s) && s.nodes.Keys == {0, 1} && s.peers == map[0 := [], 1 := []]
    requires var b := Candidate(New(cr), attempt); Mined(cr, b) && BlockHash(cr, b) != Root(cr)
    ensures Run(cr, trace, steps) && trace[0] == s && Lossless(steps, 0, 1, 0, |steps|)
    ensures var last := trace[|trace| - 1];
      Joint(last, 0, 1) && last.flight == multiset{} && last.nodes[0].blocks.Keys != last.nodes[1].blocks.Keys
  {
    var b := Candidate(New(cr), attempt);
    NewInv(cr);
    var s1 := Apply(s, 0, 0, OnMine(cr, New(cr), b));
    var s2 := s1.(peers := Joined(s1.peers, 0, 1));
    trace, steps := [s, s1, s2], [Mine(0, attempt), Connect(0, 1)];
    assert NextAt(cr, trace, steps, 0) && NextAt(cr, trace, steps, 1);
    assert BlockHash(cr, b) in s2.nodes[0].blocks && BlockHash(cr, b) !in s2.nodes[1].blocks;
  }
}
