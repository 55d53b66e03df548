/** Several nodes, the messages between them, and the steps they can take. Each handler and each mining
    attempt holds the store's lock from beginning to end (src/network/worker.rs:70, 80, 92,
    src/miner.rs:161), so each is one step. Messages arrive in any order. The messages that are not about
    blocks change no store; whatever makes a node send one, it may do so at any time. */
module Network {
  import opened Hash
  import opened Blocks
  import opened Chains
  import opened Cascades
  import opened Gossip

  datatype Envelope = Envelope(src: nat, dst: nat, msg: Message)

  datatype System = System(nodes: map<nat, Chain>, peers: map<nat, seq<nat>>, flight: multiset<Envelope>)

  /** What a miner chooses. */
  datatype Attempt = Attempt(nonce: nat, timestamp: nat, merkleRoot: H256, transactions: seq<SignedTransaction>)

  datatype Step =
    | Deliver(e: Envelope)
    | Mine(node: nat, attempt: Attempt)
    | Connect(a: nat, b: nat)
    | Drop(lost: Envelope)
    | Chat(said: Envelope)

  /** The block attempted: on the tip, with the tip's difficulty. */
  function Candidate(c: Chain, a: Attempt): Block
    requires c.tip in c.blocks
  {
    Block(Header(c.tip, a.nonce, c.blocks[c.tip].header.difficulty, a.timestamp, a.merkleRoot), Content(a.transactions))
  }

  predicate Mined(cr: Crypto, b: Block) {
    Leq(BlockHash(cr, b), b.header.difficulty)
  }

  function OnMine(cr: Crypto, c: Chain, b: Block): Effects
    requires CanInsert(c, b)
  {
    if Mined(cr, b) then Effects(Insert(cr, c, b), [], [NewBlockHashes([BlockHash(cr, b)])])
    else Effects(c, [], [])
  }

  ghost function React(cr: Crypto, c: Chain, msg: Message): Effects
    requires Ready(c)
  {
    match msg
    case NewBlockHashes(hs) => OnNewBlockHashes(c, hs)
    case GetBlocks(hs) => OnGetBlocks(c, hs)
    case Blocks(bs) => OnBlocks(cr, c, bs)
    case _ => Effects(c, [], [])
  }

  function Letters(src: nat, dst: nat, msgs: seq<Message>): seq<Envelope> {
    if msgs == [] then [] else Letters(src, dst, msgs[..|msgs| - 1]) + [Envelope(src, dst, msgs[|msgs| - 1])]
  }

  function Circulars(src: nat, dsts: seq<nat>, msgs: seq<Message>): seq<Envelope> {
    if dsts == [] then [] else Circulars(src, dsts[..|dsts| - 1], msgs) + Letters(src, dsts[|dsts| - 1], msgs)
  }

  /** Node `n` has reacted to `from`: its store is new, and its messages are on their way. */
  function Apply(s: System, n: nat, from: nat, eff: Effects): System
    requires n in s.peers
  {
    s.(nodes := s.nodes[n := eff.chain],
       flight := s.flight + multiset(Letters(n, from, eff.replies)) +
                 multiset(Circulars(n, s.peers[n], eff.broadcasts)))
  }

  function Take(s: System, e: Envelope): System {
    s.(flight := s.flight - multiset{e})
  }

  /** No node stores a block with this hash. */
  predicate Unused(s: System, h: H256) {
    forall m :: m in s.nodes ==> h !in s.nodes[m].blocks
  }

  /** Each of the two is added to the other's list. */
  function Joined(peers: map<nat, seq<nat>>, a: nat, b: nat): map<nat, seq<nat>>
    requires a in peers && b in peers && a != b
  {
    peers[a := peers[a] + [b]][b := peers[b] + [a]]
  }

  /** A message between nodes that is not about blocks. */
  predicate Idle(s: System, e: Envelope) {
    e.src in s.nodes && e.dst in s.nodes && !AboutBlocks(e.msg)
  }

  ghost predicate Next(cr: Crypto, s: System, step: Step, s': System) {
    match step
    case Deliver(e) =>
      && e in s.flight && e.dst in s.nodes && e.dst in s.peers && Ready(s.nodes[e.dst])
      && s' == Apply(Take(s, e), e.dst, e.src, React(cr, s.nodes[e.dst], e.msg))
    case Mine(n, a) =>
      && n in s.nodes && n in s.peers && Ready(s.nodes[n])
      && var b := Candidate(s.nodes[n], a);
      && (Mined(cr, b) ==> Unused(s, BlockHash(cr, b)))
      && s' == Apply(s, n, n, OnMine(cr, s.nodes[n], b))
    case Connect(a, b) =>
      && a in s.nodes && b in s.nodes && a in s.peers && b in s.peers && a != b
      && s' == s.(peers := Joined(s.peers, a, b))
    case Drop(e) => e in s.flight && s' == Take(s, e)
    case Chat(e) => Idle(s, e) && s' == s.(flight := s.flight + multiset{e})
  }

  ghost predicate Initial(cr: Crypto, s: System) {
    && s.peers.Keys == s.nodes.Keys && PeersKnown(s)
    && (forall n :: n in s.nodes ==> s.nodes[n] == New(cr))
    && s.flight == multiset{}
  }

  ghost predicate PeersKnown(s: System) {
    forall n, p :: n in s.peers && p in s.peers[n] ==> p in s.nodes
  }

  /** A run: `trace` lists the states, `steps` what happened between them. */
  ghost predicate Run(cr: Crypto, trace: seq<System>, steps: seq<Step>) {
    && |trace| == |steps| + 1 && Initial(cr, trace[0])
    && forall i :: 0 <= i < |steps| ==> NextAt(cr, trace, steps, i)
  }

  ghost predicate NextAt(cr: Crypto, trace: seq<System>, steps: seq<Step>, i: nat)
    requires i < |steps| && |trace| == |steps| + 1
  {
    Next(cr, trace[i], steps[i], trace[i + 1])
  }

  lemma StepOfRun(cr: Crypto, trace: seq<System>, steps: seq<Step>, j: nat)
    requires Run(cr, trace, steps) && j < |steps|
    ensures Next(cr, trace[j], steps[j], trace[j + 1])
  {
    assert NextAt(cr, trace, steps, j);
  }

  // ----- The invariant of the system

  /** The hashes that a message names. */
  function Named(msg: Message): seq<H256> {
    match msg
    case NewBlockHashes(hs) => hs
    case GetBlocks(hs) => hs
    case _ => []
  }

  function Shipped(msg: Message): seq<Block> {
    if msg.Blocks? then msg.blocks else []
  }

  /** The node that is meant to store the hashes named: the one announcing, or the one asked. */
  function Holder(e: Envelope): nat {
    if e.msg.GetBlocks? then e.dst else e.src
  }

  /** The message tells the truth: a node announces and ships only what it stores, and is asked only for
      what it stores. */
  ghost predicate Honest(cr: Crypto, s: System, e: Envelope) {
    && e.src in s.nodes && e.dst in s.nodes
    && (forall h :: h in Named(e.msg) ==> h in s.nodes[Holder(e)].blocks)
    && (forall b :: b in Shipped(e.msg) ==> Ships(cr, s.nodes[e.src], b))
  }

  predicate Ships(cr: Crypto, c: Chain, b: Block) {
    BlockHash(cr, b) in c.blocks && c.blocks[BlockHash(cr, b)] == b
  }

  ghost predicate SomewhereStored(s: System, h: H256) {
    exists m :: m in s.nodes && h in s.nodes[m].blocks
  }

  ghost predicate Ordered(cr: Crypto, s: System) {
    && s.peers.Keys == s.nodes.Keys && PeersKnown(s)
    && forall n {:trigger Inv(cr, s.nodes[n])} :: n in s.nodes ==> Inv(cr, s.nodes[n])
  }

  ghost predicate AllHonest(cr: Crypto, s: System) {
    forall e {:trigger Honest(cr, s, e)} :: e in s.flight ==> Honest(cr, s, e)
  }

  /** Whatever a node waits for is stored by some node. */
  ghost predicate WantedStored(s: System) {
    forall n, k {:trigger k in s.nodes[n].orphans, SomewhereStored(s, k)} ::
      n in s.nodes && k in s.nodes[n].orphans ==> SomewhereStored(s, k)
  }

  ghost predicate SysInv(cr: Crypto, s: System) {
    Ordered(cr, s) && AllHonest(cr, s) && WantedStored(s)
  }

  /** No node disappears and every store only grows. */
  ghost predicate Progress(s: System, s': System) {
    s'.nodes.Keys == s.nodes.Keys && forall n :: n in s.nodes ==> Grows(s.nodes[n], s'.nodes[n])
  }

  lemma {:induction false} LettersExactly(src: nat, dst: nat, msgs: seq<Message>)
    ensures forall e :: e in Letters(src, dst, msgs) <==> e.src == src && e.dst == dst && e.msg in msgs
  {
    if msgs == [] {
    } else {
      LettersExactly(src, dst, msgs[..|msgs| - 1]);
      assert msgs == msgs[..|msgs| - 1] + [msgs[|msgs| - 1]];
    }
  }

  lemma {:induction false} CircularsExactly(src: nat, dsts: seq<nat>, msgs: seq<Message>)
    ensures forall e :: e in Circulars(src, dsts, msgs) <==> e.src == src && e.dst in dsts && e.msg in msgs
  {
    if dsts == [] {
    } else {
      CircularsExactly(src, dsts[..|dsts| - 1], msgs);
      LettersExactly(src, dsts[|dsts| - 1], msgs);
      assert dsts == dsts[..|dsts| - 1] + [dsts[|dsts| - 1]];
    }
  }

  lemma {:induction false} LettersCount(src: nat, dst: nat, msgs: seq<Message>, e: Envelope)
    ensures multiset(Letters(src, dst, msgs))[e] == if e.src == src && e.dst == dst then multiset(msgs)[e.msg] else 0
  {
    if msgs == [] {
    } else {
      LettersCount(src, dst, msgs[..|msgs| - 1], e);
      assert msgs == msgs[..|msgs| - 1] + [msgs[|msgs| - 1]];
    }
  }

  /** How often `p` is on the list. */
  function Entries(list: seq<nat>, p: nat): nat {
    if list == [] then 0 else Entries(list[..|list| - 1], p) + if list[|list| - 1] == p then 1 else 0
  }

  lemma {:induction false} CircularsCount(src: nat, dsts: seq<nat>, msgs: seq<Message>, e: Envelope)
    ensures multiset(Circulars(src, dsts, msgs))[e] ==
      if e.src == src then Entries(dsts, e.dst) * multiset(msgs)[e.msg] else 0
  {
    if dsts == [] {
    } else {
      var init, last := dsts[..|dsts| - 1], dsts[|dsts| - 1];
      CircularsCount(src, init, msgs, e);
      LettersCount(src, last, msgs, e);
      OneMoreTimes(Entries(init, e.dst), multiset(msgs)[e.msg], Entries(dsts, e.dst), e.dst == last);
      assert multiset(Circulars(src, dsts, msgs))[e] ==
        multiset(Circulars(src, init, msgs))[e] + multiset(Letters(src, last, msgs))[e];
    }
  }

  lemma OneMoreTimes(n: nat, m: nat, n': nat, more: bool)
    requires n' == n + if more then 1 else 0
    ensures n' * m == n * m + if more then m else 0
  {
  }

  /** Every reply is sent once to the sender, and every broadcast once for each entry of the peer list. */
  lemma FlightExactly(s: System, n: nat, from: nat, eff: Effects, e: Envelope)
    requires n in s.peers
    ensures Apply(s, n, from, eff).flight[e] == s.flight[e] + if e.src != n then 0 else
      (if e.dst == from then multiset(eff.replies)[e.msg] else 0) +
      Entries(s.peers[n], e.dst) * multiset(eff.broadcasts)[e.msg]
  {
    LettersCount(n, from, eff.replies, e);
    CircularsCount(n, s.peers[n], eff.broadcasts, e);
  }

  /** What is in flight after a reaction. */
  lemma FlightAfter(s: System, n: nat, from: nat, eff: Effects, e: Envelope)
    requires n in s.peers
    ensures e in Apply(s, n, from, eff).flight <==>
      || e in s.flight
      || (e.src == n && e.dst == from && e.msg in eff.replies)
      || (e.src == n && e.dst in s.peers[n] && e.msg in eff.broadcasts)
  {
    LettersExactly(n, from, eff.replies);
    CircularsExactly(n, s.peers[n], eff.broadcasts);
  }

  lemma HonestStays(cr: Crypto, s: System, s': System, e: Envelope)
    requires Honest(cr, s, e) && Progress(s, s')
    ensures Honest(cr, s', e)
  {
    forall b | b in Shipped(e.msg) ensures Ships(cr, s'.nodes[e.src], b) {
      assert Ships(cr, s.nodes[e.src], b);
    }
  }

  // ----- What one node does

  lemma ReactInv(cr: Crypto, c: Chain, msg: Message)
    requires Inv(cr, c)
    ensures Ready(c) && Inv(cr, React(cr, c, msg).chain) && Grows(c, React(cr, c, msg).chain)
  {
    InvReady(cr, c);
    match msg
    case NewBlockHashes(hs) =>
    case GetBlocks(hs) =>
    case Blocks(bs) => ReceiveAllInv(cr, c, bs);
    case _ =>
  }

  /** What a node with store `c` writes to a node with store `from` tells the truth: it asks for what `from`
      stores and ships what `c` stores. */
  ghost predicate Truthful(cr: Crypto, c: Chain, from: Chain, msg: Message) {
    && !msg.NewBlockHashes?
    && (forall h :: h in Named(msg) ==> h in from.blocks)
    && (forall b :: b in Shipped(msg) ==> Ships(cr, c, b))
  }

  /** A message that announces stored hashes. */
  ghost predicate Announces(c: Chain, msg: Message) {
    msg.NewBlockHashes? && forall h :: h in msg.hashes ==> h in c.blocks
  }

  /** The reaction of a node to one whose store is `from`: the replies and broadcasts are true, and whatever
      it newly waits for is stored there. */
  ghost predicate Proper(cr: Crypto, c: Chain, from: Chain, eff: Effects) {
    && (forall msg :: msg in eff.replies ==> Truthful(cr, c, from, msg))
    && (forall msg :: msg in eff.broadcasts ==> Announces(eff.chain, msg))
    && (forall k :: k in eff.chain.orphans && k !in c.orphans ==> k in from.blocks)
  }

  lemma ShipsStored(cr: Crypto, c: Chain, hs: seq<H256>, b: Block)
    requires Inv(cr, c) && b in Stored(c, hs)
    ensures Ships(cr, c, b)
  {
    StoredExactly(c, hs);
    var h :| h in hs && Contains(c, h) && c.blocks[h] == b;
    assert h != Root(cr) ==> Linked(cr, c, h);
  }

  /** A parent that is newly asked for or waited for is stored by the node that sent the child. */
  lemma {:induction false} ParentsAtSender(cr: Crypto, from: Chain, c: Chain, bs: seq<Block>, m: H256)
    requires Inv(cr, from) && Inv(cr, c) && Ready(c) && forall b :: b in bs ==> Ships(cr, from, b)
    requires m in ReceiveAll(cr, c, bs).missing || (m in ReceiveAll(cr, c, bs).chain.orphans && m !in c.orphans)
    ensures m in from.blocks
  {
    var b: Block;
    if m in ReceiveAll(cr, c, bs).missing {
      var i := ReceiveAllMissing(cr, c, bs, m);
      b := bs[i];
    } else {
      ReceiveAllInv(cr, c, bs);
      b := ReceiveAll(cr, c, bs).chain.orphans[m][0];
      assert Waiting(ReceiveAll(cr, c, bs).chain, b);
      ReceiveAllOrigin(cr, c, bs, b);
    }
    assert Ships(cr, from, b);
    assert Linked(cr, from, BlockHash(cr, b));
  }

  /** The replies of the `Blocks` handler ask only for what the sender stores. */
  lemma RepliesTruthful(cr: Crypto, from: Chain, c: Chain, bs: seq<Block>, msg: Message)
    requires Inv(cr, from) && Inv(cr, c) && Ready(c) && forall b :: b in bs ==> Ships(cr, from, b)
    requires msg in OnBlocks(cr, c, bs).replies
    ensures Truthful(cr, c, from, msg)
  {
    OnBlocksReplies(cr, c, bs);
    if msg.GetBlocks? {
      forall m | m in ReceiveAll(cr, c, bs).missing ensures m in from.blocks {
        ParentsAtSender(cr, from, c, bs, m);
      }
    }
  }

  /** Its broadcast announces only what is stored. */
  lemma BroadcastsTrue(cr: Crypto, c: Chain, bs: seq<Block>, msg: Message)
    requires Inv(cr, c) && Ready(c) && msg in OnBlocks(cr, c, bs).broadcasts
    ensures Announces(OnBlocks(cr, c, bs).chain, msg)
  {
    ReceiveAllRelays(cr, c, bs);
  }

  lemma OnBlocksProper(cr: Crypto, from: Chain, c: Chain, bs: seq<Block>)
    requires Inv(cr, from) && Inv(cr, c) && Ready(c) && forall b :: b in bs ==> Ships(cr, from, b)
    ensures Proper(cr, c, from, OnBlocks(cr, c, bs))
  {
    var eff := OnBlocks(cr, c, bs);
    forall msg | msg in eff.replies ensures Truthful(cr, c, from, msg) {
      RepliesTruthful(cr, from, c, bs, msg);
    }
    forall msg | msg in eff.broadcasts ensures Announces(eff.chain, msg) {
      BroadcastsTrue(cr, c, bs, msg);
    }
    forall k | k in eff.chain.orphans && k !in c.orphans ensures k in from.blocks {
      ParentsAtSender(cr, from, c, bs, k);
    }
  }

  lemma OnGetBlocksProper(cr: Crypto, from: Chain, c: Chain, hs: seq<H256>)
    requires Inv(cr, c)
    ensures Proper(cr, c, from, OnGetBlocks(c, hs))
  {
    forall b | b in Stored(c, hs) ensures Ships(cr, c, b) {
      ShipsStored(cr, c, hs, b);
    }
  }

  lemma ReactProper(cr: Crypto, from: Chain, c: Chain, msg: Message)
    requires Inv(cr, from) && Inv(cr, c) && Ready(c)
    requires forall b :: b in Shipped(msg) ==> Ships(cr, from, b)
    requires msg.NewBlockHashes? ==> forall h :: h in msg.hashes ==> h in from.blocks
    ensures Proper(cr, c, from, React(cr, c, msg))
  {
    match msg
    case NewBlockHashes(hs) => MissingExactly(c, hs);
    case GetBlocks(hs) => OnGetBlocksProper(cr, from, c, hs);
    case Blocks(bs) => OnBlocksProper(cr, from, c, bs);
    case _ =>
  }

  /** A block just mined is attachable. */
  lemma CandidateAttachable(cr: Crypto, c: Chain, a: Attempt)
    requires Inv(cr, c) && Mined(cr, Candidate(c, a)) && BlockHash(cr, Candidate(c, a)) !in c.blocks
    ensures Attachable(cr, c, Candidate(c, a))
  {
    assert c.tip != Root(cr) ==> Linked(cr, c, c.tip);
  }

  lemma OnMineProper(cr: Crypto, c: Chain, a: Attempt)
    requires Inv(cr, c) && Ready(c)
    requires var b := Candidate(c, a); Mined(cr, b) ==> BlockHash(cr, b) !in c.blocks && BlockHash(cr, b) !in c.orphans
    ensures var eff := OnMine(cr, c, Candidate(c, a));
      Inv(cr, eff.chain) && Grows(c, eff.chain) && Proper(cr, c, c, eff)
  {
    if Mined(cr, Candidate(c, a)) {
      CandidateAttachable(cr, c, a);
      PlainInsertInv(cr, c, Candidate(c, a));
    }
  }

  // ----- Steps keep the invariant

  lemma ApplyProgress(s: System, n: nat, from: nat, eff: Effects)
    requires n in s.nodes && n in s.peers && Grows(s.nodes[n], eff.chain)
    ensures Progress(s, Apply(s, n, from, eff))
  {
  }

  lemma ApplyHonest(cr: Crypto, s: System, n: nat, from: nat, eff: Effects)
    requires AllHonest(cr, s) && s.peers.Keys == s.nodes.Keys && PeersKnown(s)
    requires n in s.nodes && from in s.nodes && Grows(s.nodes[n], eff.chain)
    requires Proper(cr, s.nodes[n], s.nodes[from], eff)
    ensures AllHonest(cr, Apply(s, n, from, eff))
  {
    var s' := Apply(s, n, from, eff);
    ApplyProgress(s, n, from, eff);
    forall e | e in s'.flight ensures Honest(cr, s', e) {
      FlightAfter(s, n, from, eff, e);
      if e in s.flight {
        HonestStays(cr, s, s', e);
      } else if e.dst == from && e.msg in eff.replies {
        assert Truthful(cr, s.nodes[n], s.nodes[from], e.msg);
      } else {
        assert Announces(eff.chain, e.msg);
      }
    }
  }

  lemma ApplyWanted(cr: Crypto, s: System, n: nat, from: nat, eff: Effects)
    requires WantedStored(s) && n in s.nodes && n in s.peers && from in s.nodes
    requires Grows(s.nodes[n], eff.chain) && Proper(cr, s.nodes[n], s.nodes[from], eff)
    ensures WantedStored(Apply(s, n, from, eff))
  {
    var s' := Apply(s, n, from, eff);
    ApplyProgress(s, n, from, eff);
    forall m, k | m in s'.nodes && k in s'.nodes[m].orphans ensures SomewhereStored(s', k) {
      if k in s.nodes[m].orphans {
        assert SomewhereStored(s, k);
        var x :| x in s.nodes && k in s.nodes[x].blocks;
        assert k in s'.nodes[x].blocks;
      } else {
        assert k in s'.nodes[from].blocks;
      }
    }
  }

  lemma {:induction false} ApplyInv(cr: Crypto, s: System, n: nat, from: nat, eff: Effects)
    requires SysInv(cr, s) && n in s.nodes && from in s.nodes
    requires Inv(cr, eff.chain) && Grows(s.nodes[n], eff.chain) && Proper(cr, s.nodes[n], s.nodes[from], eff)
    ensures SysInv(cr, Apply(s, n, from, eff)) && Progress(s, Apply(s, n, from, eff))
  {
    ApplyProgress(s, n, from, eff);
    ApplyHonest(cr, s, n, from, eff);
    ApplyWanted(cr, s, n, from, eff);
  }

  lemma ConnectKnown(s: System, a: nat, b: nat)
    requires PeersKnown(s) && a in s.nodes && b in s.nodes && a in s.peers && b in s.peers && a != b
    ensures PeersKnown(s.(peers := Joined(s.peers, a, b)))
    ensures forall n, p :: n in s.peers && p in s.peers[n] ==> p in Joined(s.peers, a, b)[n]
  {
  }

  lemma IdleHonest(cr: Crypto, s: System, e: Envelope)
    requires Idle(s, e)
    ensures Honest(cr, s, e)
  {
  }

  /** Fewer messages in flight, idle ones, or more links: everything known stays known. */
  lemma {:induction false} QuietInv(cr: Crypto, s: System, s': System)
    requires SysInv(cr, s) && s'.nodes == s.nodes && s'.peers.Keys == s.peers.Keys && PeersKnown(s')
    requires forall e :: e in s'.flight ==> e in s.flight || Idle(s, e)
    ensures SysInv(cr, s') && Progress(s, s')
  {
    assert Progress(s, s');
    forall e | e in s'.flight ensures Honest(cr, s', e) {
      if e in s.flight {
        HonestStays(cr, s, s', e);
      } else {
        IdleHonest(cr, s', e);
      }
    }
    forall m, k | m in s'.nodes && k in s'.nodes[m].orphans ensures SomewhereStored(s', k) {
      assert SomewhereStored(s, k);
    }
  }

  lemma {:induction false} DeliverInv(cr: Crypto, s: System, e: Envelope)
    requires SysInv(cr, s) && Honest(cr, s, e)
    ensures Ready(s.nodes[e.dst])
    ensures var s' := Apply(s, e.dst, e.src, React(cr, s.nodes[e.dst], e.msg)); SysInv(cr, s') && Progress(s, s')
  {
    ReactInv(cr, s.nodes[e.dst], e.msg);
    assert e.msg.NewBlockHashes? ==> Named(e.msg) == e.msg.hashes;
    ReactProper(cr, s.nodes[e.src], s.nodes[e.dst], e.msg);
    ApplyInv(cr, s, e.dst, e.src, React(cr, s.nodes[e.dst], e.msg));
  }

  lemma {:induction false} MineInv(cr: Crypto, s: System, n: nat, a: Attempt)
    requires SysInv(cr, s) && n in s.nodes && Inv(cr, s.nodes[n])
    requires Mined(cr, Candidate(s.nodes[n], a)) ==> Unused(s, BlockHash(cr, Candidate(s.nodes[n], a)))
    ensures Ready(s.nodes[n])
    ensures var s' := Apply(s, n, n, OnMine(cr, s.nodes[n], Candidate(s.nodes[n], a)));
      SysInv(cr, s') && Progress(s, s')
  {
    var b := Candidate(s.nodes[n], a);
    InvReady(cr, s.nodes[n]);
    assert BlockHash(cr, b) in s.nodes[n].orphans ==> SomewhereStored(s, BlockHash(cr, b));
    OnMineProper(cr, s.nodes[n], a);
    ApplyInv(cr, s, n, n, OnMine(cr, s.nodes[n], b));
  }

  lemma {:induction false} TakeInv(cr: Crypto, s: System, e: Envelope)
    requires SysInv(cr, s)
    ensures SysInv(cr, Take(s, e)) && Progress(s, Take(s, e))
  {
    QuietInv(cr, s, Take(s, e));
  }

  lemma InFlightHonest(cr: Crypto, s: System, e: Envelope)
    requires AllHonest(cr, s) && e in s.flight
    ensures Honest(cr, s, e) && Honest(cr, Take(s, e), e)
  {
    HonestStays(cr, s, s, e);
  }

  lemma {:induction false} TakeThenDeliverInv(cr: Crypto, s: System, e: Envelope)
    requires SysInv(cr, s) && e in s.flight
    ensures Honest(cr, s, e) && Ready(s.nodes[e.dst])
    ensures var s' := Apply(Take(s, e), e.dst, e.src, React(cr, s.nodes[e.dst], e.msg));
      SysInv(cr, s') && Progress(s, s')
  {
    InFlightHonest(cr, s, e);
    TakeInv(cr, s, e);
    DeliverInv(cr, Take(s, e), e);
  }

  lemma {:induction false} ConnectInv(cr: Crypto, s: System, a: nat, b: nat)
    requires SysInv(cr, s) && a in s.nodes && b in s.nodes && a != b
    ensures var s' := s.(peers := Joined(s.peers, a, b)); SysInv(cr, s') && Progress(s, s')
  {
    ConnectKnown(s, a, b);
    QuietInv(cr, s, s.(peers := Joined(s.peers, a, b)));
  }

  lemma ChatInv(cr: Crypto, s: System, e: Envelope)
    requires SysInv(cr, s) && Idle(s, e)
    ensures var s' := s.(flight := s.flight + multiset{e}); SysInv(cr, s') && Progress(s, s')
  {
    QuietInv(cr, s, s.(flight := s.flight + multiset{e}));
  }

  /** Every step keeps the invariant, and no store ever loses anything. */
  lemma {:induction false} NextInv(cr: Crypto, s: System, step: Step, s': System)
    requires SysInv(cr, s) && Next(cr, s, step, s')
    ensures SysInv(cr, s') && Progress(s, s')
  {
    match step
    case Deliver(e) => TakeThenDeliverInv(cr, s, e);
    case Mine(n, a) => MineInv(cr, s, n, a);
    case Connect(a, b) => ConnectInv(cr, s, a, b);
    case Drop(e) => TakeInv(cr, s, e);
    case Chat(e) => ChatInv(cr, s, e);
  }

  /** In every state of every run, every store is in order and every message in flight is honest. */
  lemma {:induction false} RunInv(cr: Crypto, trace: seq<System>, steps: seq<Step>, i: nat)
    requires Run(cr, trace, steps) && i < |trace|
    ensures SysInv(cr, trace[i])
  {
    if i == 0 {
      NewInv(cr);
    } else {
      RunInv(cr, trace, steps, i - 1);
      StepOfRun(cr, trace, steps, i - 1);
      NextInv(cr, trace[i - 1], steps[i - 1], trace[i]);
    }
  }

  lemma ServedInFull(c: Chain, hs: seq<H256>)
    requires forall h :: h in hs ==> h in c.blocks
    ensures |Stored(c, hs)| == |hs| && forall j :: 0 <= j < |hs| ==>
      hs[j] in c.blocks && Stored(c, hs)[j] == c.blocks[hs[j]]
  {
    StoredExactly(c, hs);
  }

  /** Every request in flight, in every state of every run, will be answered in full: the filter of the
      `GetBlocks` handler drops nothing. */
  lemma RequestsCanBeServed(cr: Crypto, trace: seq<System>, steps: seq<Step>, i: nat, e: Envelope)
    requires Run(cr, trace, steps) && i < |trace| && e in trace[i].flight && e.msg.GetBlocks?
    ensures e.dst in trace[i].nodes
    ensures var c, hs := trace[i].nodes[e.dst], e.msg.hashes;
      |Stored(c, hs)| == |hs| && forall j :: 0 <= j < |hs| ==> hs[j] in c.blocks && Stored(c, hs)[j] == c.blocks[hs[j]]
  {
    RunInv(cr, trace, steps, i);
    assert Honest(cr, trace[i], e) && Named(e.msg) == e.msg.hashes;
    ServedInFull(trace[i].nodes[e.dst], e.msg.hashes);
  }

  lemma TellsTheTruth(cr: Crypto, s: System, e: Envelope)
    requires AllHonest(cr, s) && e in s.flight
    ensures e.src in s.nodes
    ensures e.msg.NewBlockHashes? ==> forall h :: h in e.msg.hashes ==> h in s.nodes[e.src].blocks
    ensures e.msg.Blocks? ==> forall b :: b in e.msg.blocks ==> Ships(cr, s.nodes[e.src], b)
  {
    assert Honest(cr, s, e);
    assert e.msg.NewBlockHashes? ==> Named(e.msg) == e.msg.hashes;
    assert e.msg.Blocks? ==> Shipped(e.msg) == e.msg.blocks;
  }

  /** Every announcement in flight, in every state of every run, names only blocks that the announcing node
      stores, and every block shipped is stored by the node that shipped it. */
  lemma AnnouncementsAreTrue(cr: Crypto, trace: seq<System>, steps: seq<Step>, i: nat, e: Envelope)
    requires Run(cr, trace, steps) && i < |trace| && e in trace[i].flight
    ensures e.src in trace[i].nodes
    ensures e.msg.NewBlockHashes? ==> forall h :: h in e.msg.hashes ==> h in trace[i].nodes[e.src].blocks
    ensures e.msg.Blocks? ==> forall b :: b in e.msg.blocks ==> Ships(cr, trace[i].nodes[e.src], b)
  {
    RunInv(cr, trace, steps, i);
    TellsTheTruth(cr, trace[i], e);
  }
  // ----- Single steps of a run

  /** The state after `e` is delivered, as `Next` has it. */
  ghost function Delivered(cr: Crypto, s: System, e: Envelope): System
    requires e.dst in s.nodes && e.dst in s.peers && Ready(s.nodes[e.dst])
  {
    Apply(Take(s, e), e.dst, e.src, React(cr, s.nodes[e.dst], e.msg))
  }

  /** Only the node that takes the message changes its store. */
  lemma DeliveredStore(cr: Crypto, s: System, e: Envelope, n: nat)
    requires e.dst in s.nodes && e.dst in s.peers && n in s.nodes && Ready(s.nodes[e.dst])
    ensures n in Delivered(cr, s, e).nodes
    ensures Delivered(cr, s, e).nodes[n] == if n == e.dst then React(cr, s.nodes[n], e.msg).chain else s.nodes[n]
  {
  }

  lemma NextNodes(cr: Crypto, s: System, step: Step, s': System)
    requires Next(cr, s, step, s')
    ensures s'.nodes.Keys == s.nodes.Keys
  {
  }

  /** The nodes are the same throughout a run. */
  lemma {:induction false} RunNodes(cr: Crypto, trace: seq<System>, steps: seq<Step>, i: nat)
    requires Run(cr, trace, steps) && i < |trace|
    ensures trace[i].nodes.Keys == trace[0].nodes.Keys
  {
    if i == 0 {
    } else {
      RunNodes(cr, trace, steps, i - 1);
      StepOfRun(cr, trace, steps, i - 1);
      NextNodes(cr, trace[i - 1], steps[i - 1], trace[i]);
    }
  }

  lemma OrphansStay(cr: Crypto, s: System, step: Step, s': System)
    requires Next(cr, s, step, s') && !step.Deliver?
    ensures forall n :: n in s'.nodes ==> n in s.nodes && s'.nodes[n].orphans == s.nodes[n].orphans
  {
    match step
    case Mine(n, a) => assert OnMine(cr, s.nodes[n], Candidate(s.nodes[n], a)).chain.orphans == s.nodes[n].orphans;
    case Connect(_, _) => assert s'.nodes == s.nodes;
    case Drop(_) => assert s'.nodes == s.nodes;
    case Chat(_) => assert s'.nodes == s.nodes;
  }

  lemma RunStep(cr: Crypto, trace: seq<System>, steps: seq<Step>, j: nat)
    requires Run(cr, trace, steps) && j < |steps|
    ensures Ordered(cr, trace[j]) && AllHonest(cr, trace[j])
    ensures Next(cr, trace[j], steps[j], trace[j + 1]) && Progress(trace[j], trace[j + 1])
  {
    RunInv(cr, trace, steps, j);
    StepOfRun(cr, trace, steps, j);
    NextInv(cr, trace[j], steps[j], trace[j + 1]);
  }
  lemma ProgressTransitive(s: System, t: System, u: System)
    requires Progress(s, t) && Progress(t, u)
    ensures Progress(s, u)
  {
    forall n | n in s.nodes ensures Grows(s.nodes[n], u.nodes[n]) {
      GrowsTransitive(s.nodes[n], t.nodes[n], u.nodes[n]);
    }
  }

  lemma StepProgress(cr: Crypto, trace: seq<System>, steps: seq<Step>, k: nat)
    requires Run(cr, trace, steps) && k < |steps|
    ensures Progress(trace[k], trace[k + 1])
  {
    RunStep(cr, trace, steps, k);
  }

  /** No store ever loses or changes anything. */
  lemma {:induction false} RunProgress(cr: Crypto, trace: seq<System>, steps: seq<Step>, j: nat, i: nat)
    requires Run(cr, trace, steps) && j <= i < |trace|
    ensures Progress(trace[j], trace[i])
    decreases i - j
  {
    if i == j {
    } else {
      var k := i - 1;
      RunProgress(cr, trace, steps, j, k);
      StepProgress(cr, trace, steps, k);
      ProgressTransitive(trace[j], trace[k], trace[k + 1]);
    }
  }
}
