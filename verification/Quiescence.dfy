/** Without mining, the messages about blocks run out: delivering one lowers a measure that nothing else raises,
    so a network left to itself comes to rest, and then linked nodes agree. */
module Quiescence {
  import opened Hash
  import opened Blocks
  import opened Chains
  import opened Cascades
  import opened Gossip
  import opened Network
  import opened Contents
  import opened Paths
  import opened Agreement

  // ----- How much a message can still set off

  /** The greatest of the heights of `hs`. */
  ghost function Top(m: map<H256, nat>, hs: seq<H256>): nat {
    if hs == [] then 0
    else
      var t, h := Top(m, hs[..|hs| - 1]), hs[|hs| - 1];
      if h in m && m[h] > t then m[h] else t
  }

  lemma {:induction false} TopAbove(m: map<H256, nat>, hs: seq<H256>, h: H256)
    requires h in hs && h in m
    ensures m[h] <= Top(m, hs)
  {
    var init, last := hs[..|hs| - 1], hs[|hs| - 1];
    if h in init {
      TopAbove(m, init, h);
    } else {
      assert hs == init + [last];
    }
  }

  lemma {:induction false} TopWithin(m: map<H256, nat>, hs: seq<H256>, k: nat)
    requires forall h :: h in hs && h in m ==> m[h] <= k
    ensures Top(m, hs) <= k
  {
    if hs == [] {
    } else {
      TopWithin(m, hs[..|hs| - 1], k);
    }
  }

  lemma TopSubset(m: map<H256, nat>, hs: seq<H256>, gs: seq<H256>)
    requires forall h :: h in hs ==> h in gs
    ensures Top(m, hs) <= Top(m, gs)
  {
    forall h | h in hs && h in m ensures m[h] <= Top(m, gs) {
      TopAbove(m, gs, h);
    }
    TopWithin(m, hs, Top(m, gs));
  }

  lemma {:induction false} TopStays(m: map<H256, nat>, m': map<H256, nat>, hs: seq<H256>)
    requires forall h :: h in hs ==> h in m && h in m' && m'[h] == m[h]
    ensures Top(m', hs) == Top(m, hs)
  {
    if hs == [] {
    } else {
      TopStays(m, m', hs[..|hs| - 1]);
    }
  }

  lemma {:induction false} HashesExactly(cr: Crypto, bs: seq<Block>)
    ensures forall h :: h in Hashes(cr, bs) <==> HasHash(cr, bs, h)
  {
    if bs == [] {
    } else {
      var init, last := bs[..|bs| - 1], bs[|bs| - 1];
      HashesExactly(cr, init);
      forall h ensures h in Hashes(cr, bs) <==> HasHash(cr, bs, h) {
        assert HasHash(cr, init, h) ==> HasHash(cr, bs, h);
        assert BlockHash(cr, last) == h ==> last in bs && HasHash(cr, bs, h);
      }
    }
  }

  ghost function HeightsAt(s: System, n: nat): map<H256, nat> {
    if n in s.nodes then s.nodes[n].heights else map[]
  }

  /** What a message is about. */
  ghost function About(cr: Crypto, msg: Message): seq<H256> {
    match msg
    case NewBlockHashes(hs) => hs
    case GetBlocks(hs) => hs
    case Blocks(bs) => Hashes(cr, bs)
    case _ => []
  }

  /** An announcement weighs more than the request it can cause, a request more than the shipment, and a
      shipment more than a request for parents. */
  ghost function Weight(cr: Crypto, s: System, e: Envelope): (w: nat)
    ensures w == 0 <==> !AboutBlocks(e.msg)
  {
    2 * Top(HeightsAt(s, Holder(e)), About(cr, e.msg)) +
    match e.msg
    case NewBlockHashes(_) => 3
    case GetBlocks(_) => 2
    case Blocks(_) => 1
    case _ => 0
  }

  ghost function Weights(cr: Crypto, s: System): Envelope -> nat {
    e => Weight(cr, s, e)
  }

  /** All together. */
  ghost function Sum(w: Envelope -> nat, fl: multiset<Envelope>): nat {
    if fl == multiset{} then 0
    else
      var e :| e in fl;
      w(e) + Sum(w, fl - multiset{e})
  }

  lemma {:induction false} SumRemove(w: Envelope -> nat, fl: multiset<Envelope>, e: Envelope)
    requires e in fl
    ensures Sum(w, fl) == w(e) + Sum(w, fl - multiset{e})
    decreases |fl|
  {
    var d :| d in fl && Sum(w, fl) == w(d) + Sum(w, fl - multiset{d});
    if d != e {
      SumRemove(w, fl - multiset{d}, e);
      SumRemove(w, fl - multiset{e}, d);
      assert fl - multiset{d} - multiset{e} == fl - multiset{e} - multiset{d};
    }
  }

  lemma {:induction false} SumSame(w: Envelope -> nat, w': Envelope -> nat, fl: multiset<Envelope>)
    requires forall e :: e in fl ==> w(e) == w'(e)
    ensures Sum(w, fl) == Sum(w', fl)
    decreases |fl|
  {
    if fl == multiset{} {
    } else {
      var e :| e in fl;
      SumRemove(w, fl, e);
      SumRemove(w', fl, e);
      SumSame(w, w', fl - multiset{e});
    }
  }

  ghost function Load(cr: Crypto, s: System): nat {
    Sum(Weights(cr, s), s.flight)
  }

  // ----- What the nodes lack

  /** The pairs of a node and a hash that it does not store but another does. */
  ghost function Lacking(s: System): set<(nat, H256)> {
    set n, m, h | n in s.nodes && m in s.nodes && h in s.nodes[m].blocks && h !in s.nodes[n].blocks :: (n, h)
  }

  // ----- A message that brings nothing new is answered by at most one lighter message

  /** What a message is about is stored at its holder, now and later, at the same heights. */
  lemma AboutStored(cr: Crypto, s: System, e: Envelope, h: H256)
    requires Honest(cr, s, e) && h in About(cr, e.msg)
    ensures Holder(e) in s.nodes && h in s.nodes[Holder(e)].blocks
  {
    if e.msg.Blocks? {
      HashesExactly(cr, e.msg.blocks);
      var x :| x in e.msg.blocks && BlockHash(cr, x) == h;
      assert Ships(cr, s.nodes[e.src], x);
    } else {
      assert h in Named(e.msg);
    }
  }

  ghost predicate HeightsKnown(s: System) {
    forall n :: n in s.nodes ==> s.nodes[n].heights.Keys == s.nodes[n].blocks.Keys
  }

  lemma OrderedHeights(cr: Crypto, s: System)
    requires Ordered(cr, s)
    ensures HeightsKnown(s)
  {
    forall n | n in s.nodes ensures s.nodes[n].heights.Keys == s.nodes[n].blocks.Keys {
      assert Inv(cr, s.nodes[n]);
    }
  }

  lemma WeightStays(cr: Crypto, s: System, s': System, e: Envelope)
    requires HeightsKnown(s) && Honest(cr, s, e) && Progress(s, s')
    ensures Weight(cr, s', e) == Weight(cr, s, e)
  {
    forall h | h in About(cr, e.msg) ensures h in s.nodes[Holder(e)].blocks {
      AboutStored(cr, s, e, h);
    }
    TopStays(HeightsAt(s, Holder(e)), HeightsAt(s', Holder(e)), About(cr, e.msg));
  }

  /** About some of the same hashes, at the same node, at a later time. */
  lemma TopFalls(s: System, s': System, n: nat, hs: seq<H256>, gs: seq<H256>)
    requires HeightsKnown(s) && Progress(s, s') && n in s.nodes
    requires (forall h :: h in hs ==> h in gs) && forall h :: h in gs ==> h in s.nodes[n].blocks
    ensures Top(HeightsAt(s', n), hs) <= Top(HeightsAt(s, n), gs)
  {
    TopStays(HeightsAt(s, n), HeightsAt(s', n), hs);
    TopSubset(HeightsAt(s, n), hs, gs);
  }

  lemma MissingBelow(cr: Crypto, a: Chain, c: Chain, bs: seq<Block>, m: H256)
    requires Inv(cr, a) && Inv(cr, c) && Ready(c) && m in ReceiveAll(cr, c, bs).missing
    requires forall x :: x in bs ==> Ships(cr, a, x)
    ensures m in a.heights && a.heights[m] + 1 <= Top(a.heights, Hashes(cr, bs))
  {
    var i := ReceiveAllMissing(cr, c, bs, m);
    var h := BlockHash(cr, bs[i]);
    assert Ships(cr, a, bs[i]);
    assert Linked(cr, a, h);
    assert HasHash(cr, bs, h);
    HashesExactly(cr, bs);
    TopAbove(a.heights, Hashes(cr, bs), h);
  }

  /** A request for parents is about lower blocks than the shipment that caused it. */
  lemma {:induction false} ParentsLower(cr: Crypto, a: Chain, c: Chain, bs: seq<Block>)
    requires Inv(cr, a) && Inv(cr, c) && Ready(c) && ReceiveAll(cr, c, bs).missing != []
    requires forall x :: x in bs ==> Ships(cr, a, x)
    ensures Top(a.heights, ReceiveAll(cr, c, bs).missing) + 1 <= Top(a.heights, Hashes(cr, bs))
    ensures forall m :: m in ReceiveAll(cr, c, bs).missing ==> m in a.heights
  {
    var missing, top := ReceiveAll(cr, c, bs).missing, Top(a.heights, Hashes(cr, bs));
    forall m | m in missing ensures m in a.heights && a.heights[m] + 1 <= top {
      MissingBelow(cr, a, c, bs, m);
    }
    assert missing[0] in missing;
    TopWithin(a.heights, missing, top - 1);
  }

  lemma SomeElement<T>(s: seq<T>)
    ensures s == [] || exists x :: x in s
  {
    if s != [] {
      assert s[0] in s;
    }
  }

  /** A message of blocks that stores nothing new makes the node write nothing but one request. */
  lemma {:induction false} NothingNew(cr: Crypto, c: Chain, bs: seq<Block>)
    requires Inv(cr, c) && Ready(c) && OnBlocks(cr, c, bs).chain.blocks.Keys <= c.blocks.Keys
    ensures var eff, missing := OnBlocks(cr, c, bs), ReceiveAll(cr, c, bs).missing;
      eff.broadcasts == [] && eff.replies == if missing == [] then [] else [GetBlocks(missing)]
  {
    var t := ReceiveAll(cr, c, bs);
    ReceiveAllRelays(cr, c, bs);
    forall k | k in t.chain.blocks ensures k in c.blocks {
      assert k in t.chain.blocks.Keys;
    }
    SomeElement(t.relay);
    SentMeansRelayed(cr, c, bs);
  }

  /** The one reply to `e`, if there is one. */
  ghost predicate Lighter(cr: Crypto, s: System, s': System, e: Envelope, replies: seq<Message>) {
    replies == [] || (|replies| == 1 && Weight(cr, s', Envelope(e.dst, e.src, replies[0])) < Weight(cr, s, e))
  }

  lemma LighterRequest(cr: Crypto, s: System, s': System, e: Envelope)
    requires HeightsKnown(s) && Honest(cr, s, e) && Progress(s, s') && e.msg.NewBlockHashes?
    ensures Lighter(cr, s, s', e, OnNewBlockHashes(s.nodes[e.dst], e.msg.hashes).replies)
  {
    MissingExactly(s.nodes[e.dst], e.msg.hashes);
    assert Named(e.msg) == e.msg.hashes;
    TopFalls(s, s', e.src, Missing(s.nodes[e.dst], e.msg.hashes), e.msg.hashes);
  }

  lemma {:induction false} LighterShipment(cr: Crypto, s: System, s': System, e: Envelope)
    requires HeightsKnown(s) && Honest(cr, s, e) && Progress(s, s') && e.msg.GetBlocks? && Inv(cr, s.nodes[e.dst])
    ensures Lighter(cr, s, s', e, OnGetBlocks(s.nodes[e.dst], e.msg.hashes).replies)
  {
    var c, hs := s.nodes[e.dst], e.msg.hashes;
    HashesExactly(cr, Stored(c, hs));
    forall h | h in Hashes(cr, Stored(c, hs)) ensures h in hs {
      StoredHash(cr, c, hs, h);
    }
    assert Named(e.msg) == hs;
    TopFalls(s, s', e.dst, Hashes(cr, Stored(c, hs)), hs);
  }

  lemma StoredHash(cr: Crypto, c: Chain, hs: seq<H256>, h: H256)
    requires Inv(cr, c) && HasHash(cr, Stored(c, hs), h)
    ensures h in hs
  {
    StoredExactly(c, hs);
    var x :| x in Stored(c, hs) && BlockHash(cr, x) == h;
    var g :| g in hs && Contains(c, g) && c.blocks[g] == x;
    assert g != Root(cr) ==> Linked(cr, c, g);
  }

  lemma {:induction false} LighterParents(cr: Crypto, s: System, s': System, e: Envelope)
    requires HeightsKnown(s) && Honest(cr, s, e) && Progress(s, s') && e.msg.Blocks?
    requires Inv(cr, s.nodes[e.src]) && Inv(cr, s.nodes[e.dst]) && Ready(s.nodes[e.dst])
    requires ReceiveAll(cr, s.nodes[e.dst], e.msg.blocks).missing != []
    ensures Weight(cr, s', Envelope(e.dst, e.src, GetBlocks(ReceiveAll(cr, s.nodes[e.dst], e.msg.blocks).missing)))
      < Weight(cr, s, e)
  {
    var missing := ReceiveAll(cr, s.nodes[e.dst], e.msg.blocks).missing;
    assert Shipped(e.msg) == e.msg.blocks;
    ParentsLower(cr, s.nodes[e.src], s.nodes[e.dst], e.msg.blocks);
    TopFalls(s, s', e.src, missing, missing);
  }

  lemma {:induction false} ReplyLighter(cr: Crypto, s: System, s': System, e: Envelope)
    requires HeightsKnown(s) && Honest(cr, s, e) && Progress(s, s')
    requires Inv(cr, s.nodes[e.src]) && Inv(cr, s.nodes[e.dst]) && Ready(s.nodes[e.dst])
    requires React(cr, s.nodes[e.dst], e.msg).chain.blocks.Keys <= s.nodes[e.dst].blocks.Keys
    ensures var eff := React(cr, s.nodes[e.dst], e.msg); eff.broadcasts == [] && Lighter(cr, s, s', e, eff.replies)
  {
    match e.msg
    case NewBlockHashes(_) => LighterRequest(cr, s, s', e);
    case GetBlocks(_) => LighterShipment(cr, s, s', e);
    case Blocks(bs) =>
      NothingNew(cr, s.nodes[e.dst], bs);
      if ReceiveAll(cr, s.nodes[e.dst], bs).missing != [] {
        LighterParents(cr, s, s', e);
      }
    case _ =>
  }

  // ----- Every delivery lowers the measure

  lemma {:induction false} NoCirculars(src: nat, dsts: seq<nat>)
    ensures Circulars(src, dsts, []) == []
  {
    if dsts == [] {
    } else {
      NoCirculars(src, dsts[..|dsts| - 1]);
    }
  }

  /** In place of `e`, at most one message is in flight. */
  lemma OneForOne(s: System, e: Envelope, eff: Effects)
    requires e.dst in s.peers && eff.broadcasts == [] && |eff.replies| <= 1
    ensures var fl := s.flight - multiset{e};
      Apply(Take(s, e), e.dst, e.src, eff).flight ==
        if eff.replies == [] then fl else fl + multiset{Envelope(e.dst, e.src, eff.replies[0])}
  {
    NoCirculars(e.dst, s.peers[e.dst]);
    if eff.replies != [] {
      assert eff.replies == [] + [eff.replies[0]];
      assert Letters(e.dst, e.src, eff.replies) == [Envelope(e.dst, e.src, eff.replies[0])];
    }
  }

  lemma {:induction false} LoadStays(cr: Crypto, s: System, s': System, fl: multiset<Envelope>)
    requires HeightsKnown(s) && AllHonest(cr, s) && Progress(s, s') && forall d :: d in fl ==> d in s.flight
    ensures Sum(Weights(cr, s'), fl) == Sum(Weights(cr, s), fl)
  {
    forall d | d in fl ensures Weights(cr, s)(d) == Weights(cr, s')(d) {
      assert Honest(cr, s, d);
      WeightStays(cr, s, s', d);
    }
    SumSame(Weights(cr, s), Weights(cr, s'), fl);
  }

  lemma {:induction false} LoadFalls(cr: Crypto, s: System, s': System, e: Envelope, replies: seq<Message>)
    requires HeightsKnown(s) && AllHonest(cr, s) && Progress(s, s') && e in s.flight
    requires AboutBlocks(e.msg) && Lighter(cr, s, s', e, replies)
    requires var fl := s.flight - multiset{e};
      s'.flight == if replies == [] then fl else fl + multiset{Envelope(e.dst, e.src, replies[0])}
    ensures Load(cr, s') < Load(cr, s)
  {
    var fl := s.flight - multiset{e};
    LoadStays(cr, s, s', fl);
    SumRemove(Weights(cr, s), s.flight, e);
    if replies != [] {
      var r := Envelope(e.dst, e.src, replies[0]);
      SumRemove(Weights(cr, s'), s'.flight, r);
      assert s'.flight - multiset{r} == fl;
    }
  }

  lemma NewIsStored(cr: Crypto, s: System, e: Envelope, h: H256)
    requires WaitingStored(cr, s) && Honest(cr, s, e) && Inv(cr, s.nodes[e.dst]) && Ready(s.nodes[e.dst])
    requires h in React(cr, s.nodes[e.dst], e.msg).chain.blocks && h !in s.nodes[e.dst].blocks
    ensures SomewhereStored(s, h)
  {
    NewIsKnown(cr, s, e, h);
    var m :| m in s.nodes && Ships(cr, s.nodes[m], React(cr, s.nodes[e.dst], e.msg).chain.blocks[h]);
  }

  /** No delivery makes a node lack anything more, and one that stores something makes it lack less. */
  lemma {:induction false} LackingFalls(cr: Crypto, s: System, e: Envelope, s': System)
    requires SysInv(cr, s) && WaitingStored(cr, s) && Honest(cr, s, e) && Ready(s.nodes[e.dst])
    requires s' == Delivered(cr, s, e) && Progress(s, s')
    ensures Lacking(s') <= Lacking(s)
    ensures Lacking(s') == Lacking(s) ==>
      React(cr, s.nodes[e.dst], e.msg).chain.blocks.Keys <= s.nodes[e.dst].blocks.Keys
  {
    forall n, m, h | n in s'.nodes && m in s'.nodes && h in s'.nodes[m].blocks && h !in s'.nodes[n].blocks
      ensures (n, h) in Lacking(s)
    {
      DeliveredStore(cr, s, e, m);
      if h !in s.nodes[m].blocks {
        NewIsStored(cr, s, e, h);
      }
      LackedIn(s, n, h);
    }
    DeliveredStore(cr, s, e, e.dst);
    forall h | h in s'.nodes[e.dst].blocks && h !in s.nodes[e.dst].blocks
      ensures (e.dst, h) in Lacking(s) && (e.dst, h) !in Lacking(s')
    {
      NewIsStored(cr, s, e, h);
      LackedIn(s, e.dst, h);
    }
  }

  lemma LackedIn(s: System, n: nat, h: H256)
    requires n in s.nodes && h !in s.nodes[n].blocks && SomewhereStored(s, h)
    ensures (n, h) in Lacking(s)
  {
  }

  /** The measure: fewer pairs lacking, or as many and less in flight. */
  ghost predicate Lower(cr: Crypto, s: System, s': System) {
    Lacking(s') < Lacking(s) || (Lacking(s') == Lacking(s) && Load(cr, s') < Load(cr, s))
  }

  lemma NextProgress(cr: Crypto, s: System, step: Step, s': System)
    requires SysInv(cr, s) && Next(cr, s, step, s')
    ensures Progress(s, s')
  {
    NextInv(cr, s, step, s');
  }

  /** A delivery after which the node stores nothing new. */
  lemma QuietDelivery(cr: Crypto, s: System, e: Envelope, s': System)
    requires HeightsKnown(s) && AllHonest(cr, s) && Honest(cr, s, e) && Progress(s, s') && e in s.flight
    requires AboutBlocks(e.msg)
    requires Inv(cr, s.nodes[e.src]) && Inv(cr, s.nodes[e.dst]) && Ready(s.nodes[e.dst])
    requires e.dst in s.peers && s' == Delivered(cr, s, e)
    requires React(cr, s.nodes[e.dst], e.msg).chain.blocks.Keys <= s.nodes[e.dst].blocks.Keys
    ensures Load(cr, s') < Load(cr, s)
  {
    var eff := React(cr, s.nodes[e.dst], e.msg);
    ReplyLighter(cr, s, s', e);
    OneForOne(s, e, eff);
    LoadFalls(cr, s, s', e, eff.replies);
  }

  /** Delivering a message about blocks, whichever it is, lowers the measure. */
  lemma {:induction false} DeliveryLowers(cr: Crypto, s: System, e: Envelope, s': System)
    requires SysInv(cr, s) && WaitingStored(cr, s) && Next(cr, s, Deliver(e), s') && AboutBlocks(e.msg)
    ensures Lower(cr, s, s')
  {
    NextProgress(cr, s, Deliver(e), s');
    InFlightHonest(cr, s, e);
    LackingFalls(cr, s, e, s');
    if Lacking(s') == Lacking(s) {
      OrderedHeights(cr, s);
      QuietDelivery(cr, s, e, s');
    }
  }

  /** Lower, or the same. */
  ghost predicate NotHigher(cr: Crypto, s: System, s': System) {
    Lower(cr, s, s') || (Lacking(s') == Lacking(s) && Load(cr, s') == Load(cr, s))
  }

  lemma SameStoresSameSum(cr: Crypto, s: System, s': System, fl: multiset<Envelope>)
    requires s'.nodes == s.nodes
    ensures Sum(Weights(cr, s'), fl) == Sum(Weights(cr, s), fl)
  {
    forall e | e in fl ensures Weights(cr, s)(e) == Weights(cr, s')(e) {
      assert HeightsAt(s, Holder(e)) == HeightsAt(s', Holder(e));
    }
    SumSame(Weights(cr, s), Weights(cr, s'), fl);
  }

  lemma OneLess(cr: Crypto, s: System, s': System, e: Envelope)
    requires s'.nodes == s.nodes && e in s.flight && s'.flight == s.flight - multiset{e}
    ensures NotHigher(cr, s, s')
    ensures !AboutBlocks(e.msg) ==> Load(cr, s') == Load(cr, s)
  {
    SameStoresSameSum(cr, s, s', s'.flight);
    SumRemove(Weights(cr, s), s.flight, e);
  }

  lemma SameMeasure(cr: Crypto, s: System, s': System)
    requires s'.nodes == s.nodes && s'.flight == s.flight
    ensures NotHigher(cr, s, s')
  {
    SameStoresSameSum(cr, s, s', s.flight);
  }

  lemma OneIdleMore(cr: Crypto, s: System, s': System, e: Envelope)
    requires s'.nodes == s.nodes && s'.flight == s.flight + multiset{e} && !AboutBlocks(e.msg)
    ensures NotHigher(cr, s, s')
  {
    SameStoresSameSum(cr, s, s', s.flight);
    SumRemove(Weights(cr, s'), s'.flight, e);
    assert s'.flight - multiset{e} == s.flight;
  }

  /** The other messages change no store and are answered by nothing about blocks. */
  lemma IdleDelivery(cr: Crypto, s: System, e: Envelope, s': System)
    requires Next(cr, s, Deliver(e), s') && !AboutBlocks(e.msg)
    ensures s'.nodes == s.nodes && s'.flight == s.flight - multiset{e}
  {
    OneForOne(s, e, React(cr, s.nodes[e.dst], e.msg));
  }

  /** No step but mining raises the measure: not a loss, a new link, or talk about transactions. */
  lemma {:induction false} StepNotHigher(cr: Crypto, s: System, step: Step, s': System)
    requires SysInv(cr, s) && WaitingStored(cr, s) && Next(cr, s, step, s') && !step.Mine?
    ensures NotHigher(cr, s, s')
    ensures step.Deliver? && AboutBlocks(step.e.msg) ==> Lower(cr, s, s')
  {
    match step
    case Deliver(e) =>
      if AboutBlocks(e.msg) {
        DeliveryLowers(cr, s, e, s');
      } else {
        IdleDelivery(cr, s, e, s');
        OneLess(cr, s, s', e);
      }
    case Connect(_, _) => SameMeasure(cr, s, s');
    case Drop(e) => OneLess(cr, s, s', e);
    case Chat(e) => OneIdleMore(cr, s, s', e);
  }

  // ----- Over whole runs

  predicate DeliversBlocks(step: Step) {
    step.Deliver? && AboutBlocks(step.e.msg)
  }

  ghost predicate NoMining(steps: seq<Step>, from: nat, i: nat) {
    forall j :: from <= j < i && j < |steps| ==> !steps[j].Mine?
  }

  /** The measure does not rise at step `j`, and falls if a message about blocks is delivered. */
  ghost predicate FallsAt(cr: Crypto, trace: seq<System>, steps: seq<Step>, j: nat)
    requires j < |steps| && |trace| == |steps| + 1
  {
    NotHigher(cr, trace[j], trace[j + 1]) && (DeliversBlocks(steps[j]) ==> Lower(cr, trace[j], trace[j + 1]))
  }

  lemma {:induction false} StepFalls(cr: Crypto, trace: seq<System>, steps: seq<Step>, j: nat)
    requires Run(cr, trace, steps) && j < |steps| && !steps[j].Mine?
    ensures FallsAt(cr, trace, steps, j)
  {
    RunInv(cr, trace, steps, j);
    RunWaiting(cr, trace, steps, j);
    StepOfRun(cr, trace, steps, j);
    StepNotHigher(cr, trace[j], steps[j], trace[j + 1]);
  }

  lemma Transitive(cr: Crypto, s: System, t: System, u: System)
    requires NotHigher(cr, s, t) && NotHigher(cr, t, u)
    ensures NotHigher(cr, s, u)
    ensures Lower(cr, s, t) || Lower(cr, t, u) ==> Lower(cr, s, u)
  {
  }

  ghost predicate SomeDelivery(steps: seq<Step>, from: nat, i: nat) {
    exists j :: from <= j < i && j < |steps| && DeliversBlocks(steps[j])
  }

  lemma LastDelivery(steps: seq<Step>, from: nat, j: nat)
    requires from <= j < |steps| && SomeDelivery(steps, from, j + 1)
    ensures SomeDelivery(steps, from, j) || DeliversBlocks(steps[j])
  {
    var k :| from <= k < j + 1 && k < |steps| && DeliversBlocks(steps[k]);
  }

  lemma {:induction false} FallsThroughout(cr: Crypto, trace: seq<System>, steps: seq<Step>, from: nat, i: nat)
    requires |trace| == |steps| + 1 && from <= i < |trace|
    requires forall j :: from <= j < i ==> FallsAt(cr, trace, steps, j)
    ensures NotHigher(cr, trace[from], trace[i])
    ensures SomeDelivery(steps, from, i) ==> Lower(cr, trace[from], trace[i])
    decreases i - from
  {
    if i == from {
    } else {
      var j := i - 1;
      FallsThroughout(cr, trace, steps, from, j);
      assert FallsAt(cr, trace, steps, j);
      Transitive(cr, trace[from], trace[j], trace[i]);
      if SomeDelivery(steps, from, i) {
        LastDelivery(steps, from, j);
      }
    }
  }

  /** As long as nothing is mined, the measure never rises, and it falls if any message about blocks is delivered,
      whatever else happens in between. It is well-founded, so only finitely many can be. */
  lemma {:induction false} DeliveriesLower(cr: Crypto, trace: seq<System>, steps: seq<Step>, from: nat, i: nat)
    requires Run(cr, trace, steps) && from <= i < |trace| && NoMining(steps, from, i)
    ensures NotHigher(cr, trace[from], trace[i])
    ensures SomeDelivery(steps, from, i) ==> Lower(cr, trace[from], trace[i])
  {
    forall j | from <= j < i ensures FallsAt(cr, trace, steps, j) {
      StepFalls(cr, trace, steps, j);
    }
    FallsThroughout(cr, trace, steps, from, i);
  }

  // ----- Coming to rest

  /** From step `from` on, messages about blocks are delivered and nothing else happens. */
  ghost predicate OnlyDeliveries(steps: seq<Step>, from: nat) {
    forall j :: from <= j < |steps| ==> DeliversBlocks(steps[j])
  }

  lemma RunExtends(cr: Crypto, trace: seq<System>, steps: seq<Step>, step: Step, s': System)
    requires Run(cr, trace, steps) && Next(cr, trace[|trace| - 1], step, s')
    ensures Run(cr, trace + [s'], steps + [step])
  {
    var all, more := trace + [s'], steps + [step];
    forall i | 0 <= i < |more| ensures NextAt(cr, all, more, i) {
      if i < |steps| {
        StepOfRun(cr, trace, steps, i);
      }
    }
  }

  lemma {:induction false} OneDelivery(cr: Crypto, trace: seq<System>, steps: seq<Step>, e: Envelope)
    returns (s': System)
    requires Run(cr, trace, steps) && e in trace[|steps|].flight
    ensures Run(cr, trace + [s'], steps + [Deliver(e)])
    ensures AboutBlocks(e.msg) ==> Lower(cr, trace[|steps|], s')
    ensures !AboutBlocks(e.msg) ==>
      var s := trace[|steps|]; Lacking(s') == Lacking(s) && Load(cr, s') == Load(cr, s) && |s'.flight| < |s.flight|
  {
    var s := trace[|steps|];
    RunInv(cr, trace, steps, |steps|);
    RunWaiting(cr, trace, steps, |steps|);
    InFlightHonest(cr, s, e);
    assert Inv(cr, s.nodes[e.dst]);
    InvReady(cr, s.nodes[e.dst]);
    s' := Delivered(cr, s, e);
    RunExtends(cr, trace, steps, Deliver(e), s');
    if AboutBlocks(e.msg) {
      DeliveryLowers(cr, s, e, s');
    } else {
      IdleDelivery(cr, s, e, s');
      OneLess(cr, s, s', e);
    }
  }

  /** From every reachable state, delivering messages about blocks, and nothing else, brings the network to rest. */
  lemma {:induction false} ComesToRest(cr: Crypto, trace: seq<System>, steps: seq<Step>)
    returns (all: seq<System>, more: seq<Step>)
    requires Run(cr, trace, steps)
    ensures Run(cr, all, more) && trace <= all && steps <= more && OnlyDeliveries(more, |steps|)
    ensures AtRest(all[|more|])
    decreases Lacking(trace[|steps|]), Load(cr, trace[|steps|])
  {
    if AtRest(trace[|steps|]) {
      all, more := trace, steps;
    } else {
      var e :| e in trace[|steps|].flight && AboutBlocks(e.msg);
      var s' := OneDelivery(cr, trace, steps, e);
      all, more := ComesToRest(cr, trace + [s'], steps + [Deliver(e)]);
    }
  }

  /** Delivering everything, it falls silent, if nobody starts to talk about something else. */
  lemma {:induction false} FallsSilent(cr: Crypto, trace: seq<System>, steps: seq<Step>)
    returns (all: seq<System>, more: seq<Step>)
    requires Run(cr, trace, steps)
    ensures Run(cr, all, more) && trace <= all && steps <= more
    ensures forall j :: |steps| <= j < |more| ==> more[j].Deliver?
    ensures all[|more|].flight == multiset{}
    decreases Lacking(trace[|steps|]), Load(cr, trace[|steps|]), |trace[|steps|].flight|
  {
    if trace[|steps|].flight == multiset{} {
      all, more := trace, steps;
    } else {
      var e :| e in trace[|steps|].flight;
      var s' := OneDelivery(cr, trace, steps, e);
      all, more := FallsSilent(cr, trace + [s'], steps + [Deliver(e)]);
    }
  }

  /** A path of links stays one while messages are delivered. */
  lemma LinkedPathExtends(trace: seq<System>, steps: seq<Step>, all: seq<System>, more: seq<Step>, p: seq<nat>,
          times: seq<nat>)
    requires |trace| == |steps| + 1 && |all| == |more| + 1 && trace <= all && steps <= more
    requires OnlyDeliveries(more, |steps|)
    requires LinkedPath(trace, steps, p, times, |steps|) && p[0] in all[|more|].nodes
    ensures LinkedPath(all, more, p, times, |more|)
    ensures AlikeWhenLinked(trace, p, times) ==> AlikeWhenLinked(all, p, times)
    ensures forall h :: NotAhead(trace, p, times, h) ==> NotAhead(all, p, times, h)
  {
    forall k | 0 < k < |p| ensures Link(all, more, Before(p, k), p[k], times[k], |more|) {
      assert Link(trace, steps, Before(p, k), p[k], times[k], |steps|);
      LosslessExtends(steps, more, Before(p, k), p[k], times[k]);
    }
    forall h | NotAhead(trace, p, times, h) ensures NotAhead(all, p, times, h) {
      forall k | 0 < k < |p|
        ensures times[k] < |all| && Before(p, k) in all[times[k]].nodes && p[k] in all[times[k]].nodes
        ensures h !in Ahead(all[times[k]], Before(p, k), p[k])
      {
        assert all[times[k]] == trace[times[k]];
      }
    }
  }

  lemma LosslessExtends(steps: seq<Step>, more: seq<Step>, a: nat, b: nat, j: nat)
    requires steps <= more && OnlyDeliveries(more, |steps|) && Lossless(steps, a, b, j, |steps|)
    ensures Lossless(more, a, b, j, |more|)
  {
    forall k | j <= k < |more| && more[k].Drop? ensures !Concerns(more[k].lost, a, b) {
      if k < |steps| {
        assert more[k] == steps[k];
      }
    }
  }

  /** Every run can be continued by delivering messages about blocks until none is in flight. Then along every path
      of links, made at whatever times and without losses since, what the first node stores has reached the last,
      unless a node on the way was ahead of the next one by it when they were linked; and if linked nodes stored the
      same at that time, the two ends store the same blocks, heights and states, and have tips of one height. */
  lemma EventualAgreement(cr: Crypto, trace: seq<System>, steps: seq<Step>, p: seq<nat>, times: seq<nat>)
    returns (all: seq<System>, more: seq<Step>)
    requires Run(cr, trace, steps) && LinkedPath(trace, steps, p, times, |steps|)
    ensures Run(cr, all, more) && trace <= all && steps <= more && OnlyDeliveries(more, |steps|)
    ensures AtRest(all[|more|])
    ensures p[0] in all[|more|].nodes && p[|p| - 1] in all[|more|].nodes
    ensures forall h :: h in all[|more|].nodes[p[0]].blocks && NotAhead(trace, p, times, h) ==>
      h in all[|more|].nodes[p[|p| - 1]].blocks
    ensures AlikeWhenLinked(trace, p, times) ==>
      SameStore(all[|more|].nodes[p[0]], all[|more|].nodes[p[|p| - 1]])
  {
    all, more := ComesToRest(cr, trace, steps);
    RunNodes(cr, all, more, |steps|);
    RunNodes(cr, all, more, |more|);
    LinkedPathExtends(trace, steps, all, more, p, times);
    PathEnds(cr, all, more, p, times, |more|);
    forall h | h in all[|more|].nodes[p[0]].blocks && NotAhead(trace, p, times, h)
      ensures h in all[|more|].nodes[p[|p| - 1]].blocks
    {
      PathInclusion(cr, all, more, p, times, |more|, h);
    }
    if AlikeWhenLinked(trace, p, times) {
      NetworkAgreement(cr, all, more, p, times, |more|);
    }
  }

  lemma PathEnds(cr: Crypto, trace: seq<System>, steps: seq<Step>, p: seq<nat>, times: seq<nat>, i: nat)
    requires Run(cr, trace, steps) && LinkedPath(trace, steps, p, times, i)
    ensures p[|p| - 1] in trace[i].nodes
  {
    if |p| == 1 {
    } else {
      var n := |p| - 1;
      assert Link(trace, steps, Before(p, n), p[n], times[n], i);
      RunNodes(cr, trace, steps, times[n]);
      RunNodes(cr, trace, steps, i);
    }
  }
}
