/** One node announces, the other asks: how the exchange of `NewBlockHashes`, `GetBlocks` and `Blocks`
    between two nodes fetches a block together with all its missing ancestors, and when it stops. */
module Backfill {
  import opened Hash
  import opened Blocks
  import opened Chains
  import opened Cascades
  import opened Paths
  import opened Gossip
  import opened Deliveries
  import opened Network
  import opened Agreement

  /** The store of the asking node, how many `Blocks` messages it received, and what it still asks for. */
  datatype Backfilled = Backfilled(chain: Chain, replies: nat, left: seq<H256>)

  /** How a node with store `c` takes the answer of `a` to its request: `a` ships what it stores of it. */
  ghost function Answer(cr: Crypto, a: Chain): (Chain, seq<H256>) -> Batch {
    (c: Chain, hs: seq<H256>) => if Ready(c) then ReceiveAll(cr, c, Stored(a, hs)) else Batch(c, [], [], [])
  }

  /** The exchange, once `req` has been asked, cut off after `k` replies: each reply makes the node ask for
      the parents it then misses, and the exchange ends when it misses none. */
  ghost function Exchange(reply: (Chain, seq<H256>) -> Batch, b: Chain, req: seq<H256>, k: nat): Backfilled
    decreases k
  {
    if req == [] || k == 0 then Backfilled(b, 0, req)
    else
      var r := Exchange(reply, reply(b, req).chain, reply(b, req).missing, k - 1);
      r.(replies := r.replies + 1)
  }

  /** Every reply to something asked keeps `inv`, whose number goes down by one. */
  ghost predicate Kept(reply: (Chain, seq<H256>) -> Batch, inv: (Chain, seq<H256>, nat) -> bool) {
    forall c: Chain, hs: seq<H256>, j: nat {:trigger inv(c, hs, j), reply(c, hs)} :: inv(c, hs, j) && hs != [] ==>
      j >= 1 && inv(reply(c, hs).chain, reply(c, hs).missing, j - 1)
  }

  /** What every reply keeps holds at the end, and the end comes before the cut-off. */
  lemma {:induction false} ExchangeKeeps(reply: (Chain, seq<H256>) -> Batch, inv: (Chain, seq<H256>, nat) -> bool,
                                         b: Chain, req: seq<H256>, k: nat)
    requires Kept(reply, inv) && inv(b, req, k)
    ensures var r := Exchange(reply, b, req, k); r.left == [] && r.replies <= k && inv(r.chain, [], k - r.replies)
    decreases k
  {
    if req == [] {
    } else {
      assert inv(reply(b, req).chain, reply(b, req).missing, k - 1);
      ExchangeKeeps(reply, inv, reply(b, req).chain, reply(b, req).missing, k - 1);
    }
  }

  /** Everything asked for is stored at `a`, above genesis and no higher than `k`. */
  ghost predicate Asks(a: Chain, req: seq<H256>, k: nat) {
    forall h :: h in req ==> h in a.blocks && h in a.heights && 1 <= a.heights[h] <= k
  }

  /** What is asked for after one reply is lower by one: it is the parents of what was asked for. */
  lemma RoundAsks(cr: Crypto, a: Chain, b: Chain, req: seq<H256>, k: nat)
    requires Inv(cr, a) && Inv(cr, b) && Asks(a, req, k) && req != []
    ensures Ready(b) && k >= 1
    ensures var t := ReceiveAll(cr, b, Stored(a, req)); Inv(cr, t.chain) && Asks(a, t.missing, k - 1)
  {
    assert req[0] in req;
    ReceiveAllInv(cr, b, Stored(a, req));
    var t := ReceiveAll(cr, b, Stored(a, req));
    forall m | m in t.missing ensures m in a.blocks && m in a.heights && 1 <= a.heights[m] <= k - 1 {
      MissingIsLower(cr, a, b, req, k, m);
    }
  }

  lemma {:induction false} MissingIsLower(cr: Crypto, a: Chain, b: Chain, req: seq<H256>, k: nat, m: H256)
    requires Inv(cr, a) && Inv(cr, b) && Asks(a, req, k) && Ready(b) && m in ReceiveAll(cr, b, Stored(a, req)).missing
    ensures m in a.blocks && m in a.heights && 1 <= a.heights[m] <= k - 1
  {
    var bs := Stored(a, req);
    var i := ReceiveAllMissing(cr, b, bs, m);
    StoredExactly(a, req);
    var h :| h in req && Contains(a, h) && a.blocks[h] == bs[i];
    assert Linked(cr, a, h);
    MissingNotRoot(cr, b, bs, m);
    assert m != Root(cr) ==> Linked(cr, a, m);
  }

  lemma {:induction false} MissingNotRoot(cr: Crypto, b: Chain, bs: seq<Block>, m: H256)
    requires Inv(cr, b) && Ready(b) && m in ReceiveAll(cr, b, bs).missing
    ensures m != Root(cr)
  {
    if bs == [] {
    } else {
      var init := bs[..|bs| - 1];
      ReceiveAllInv(cr, b, init);
      if m in ReceiveAll(cr, b, init).missing {
        MissingNotRoot(cr, b, init, m);
      }
    }
  }

  // ----- Nothing announced gets lost on the way

  /** The request as a message in flight, between node 0 with the blocks and node 1 without. */
  ghost function Asking(req: seq<H256>): multiset<Envelope> {
    multiset{Envelope(1, 0, GetBlocks(req))}
  }

  lemma {:induction false} RoundHand(cr: Crypto, a: Chain, b: Chain, req: seq<H256>)
    requires Inv(cr, a) && Inv(cr, b) && Ready(b) && forall h :: h in req ==> h in a.blocks
    ensures var t := ReceiveAll(cr, b, Stored(a, req));
      HandKept(cr, a, b, Asking(req), t.chain, Asking(t.missing), 0, 1)
  {
    var bs := Stored(a, req);
    var t := ReceiveAll(cr, b, bs);
    ReceiveAllInv(cr, b, bs);
    StoredExactly(a, req);
    forall x | x in bs ensures Ships(cr, a, x) {
      ShipsStored(cr, a, req, x);
    }
    forall h | h in a.blocks && InHand(cr, b, Asking(req), 0, 1, h)
      ensures InHand(cr, t.chain, Asking(t.missing), 0, 1, h) || Fetching(cr, a, t.chain, Asking(t.missing), 0, 1, h)
    {
      if h !in b.blocks {
        var e :| e in Asking(req) && Carries(cr, e, 0, 1, h);
        assert a.blocks[h] in bs && Ships(cr, a, a.blocks[h]);
        assert Linked(cr, a, h);
        ShippedIsHandled(cr, a, b, bs, h, Asking(t.missing), 0, 1);
      }
    }
  }

  lemma RoundWait(cr: Crypto, b: Chain, bs: seq<Block>)
    requires Inv(cr, b) && Ready(b)
    ensures WaitKept(cr, b, ReceiveAll(cr, b, bs).chain)
  {
    forall x: Block | Waiting(b, x) ensures Settled(cr, ReceiveAll(cr, b, bs).chain, x) {
      ReceiveAllSettles(cr, b, bs, x);
    }
  }

  lemma {:induction false} RoundChased(cr: Crypto, a: Chain, b: Chain, req: seq<H256>, h: H256)
    requires Inv(cr, a) && Inv(cr, b) && Ready(b) && h in a.blocks && forall x :: x in req ==> x in a.blocks
    requires Chased(cr, a, b, Asking(req), 0, 1, h)
    ensures var t := ReceiveAll(cr, b, Stored(a, req)); Chased(cr, a, t.chain, Asking(t.missing), 0, 1, h)
  {
    var t := ReceiveAll(cr, b, Stored(a, req));
    RoundHand(cr, a, b, req);
    RoundWait(cr, b, Stored(a, req));
    ChasedKept(cr, a, b, Asking(req), a, t.chain, Asking(t.missing), 0, 1, h);
  }

  /** `h` is chased by a request whose hashes are at most `j` high. */
  ghost predicate Chasing(cr: Crypto, a: Chain, h: H256, c: Chain, req: seq<H256>, j: nat)
    requires Tree(cr, a) && h in a.blocks
  {
    Inv(cr, c) && Asks(a, req, j) && Chased(cr, a, c, Asking(req), 0, 1, h)
  }

  lemma ChasingStep(cr: Crypto, a: Chain, h: H256, c: Chain, req: seq<H256>, j: nat)
    requires Inv(cr, a) && h in a.blocks && Chasing(cr, a, h, c, req, j) && req != []
    ensures j >= 1
    ensures var t := Answer(cr, a)(c, req); Chasing(cr, a, h, t.chain, t.missing, j - 1)
  {
    RoundAsks(cr, a, c, req, j);
    RoundChased(cr, a, c, req, h);
  }

  lemma ChasingKept(cr: Crypto, a: Chain, h: H256, inv: (Chain, seq<H256>, nat) -> bool)
    requires Inv(cr, a) && h in a.blocks
    requires forall c: Chain, req: seq<H256>, j: nat :: inv(c, req, j) <==> Chasing(cr, a, h, c, req, j)
    ensures Kept(Answer(cr, a), inv)
  {
    forall c: Chain, req: seq<H256>, j: nat | inv(c, req, j) && req != []
      ensures j >= 1 && inv(Answer(cr, a)(c, req).chain, Answer(cr, a)(c, req).missing, j - 1)
    {
      ChasingStep(cr, a, h, c, req, j);
    }
  }

  /** The exchange ends within `k` replies, and what is chased at the beginning is stored at the end. */
  lemma ExchangeFetches(cr: Crypto, a: Chain, b: Chain, req: seq<H256>, k: nat, h: H256)
    requires Inv(cr, a) && h in a.blocks && Chasing(cr, a, h, b, req, k)
    ensures var r := Exchange(Answer(cr, a), b, req, k);
      r.left == [] && r.replies <= k && Inv(cr, r.chain) && h in r.chain.blocks
  {
    var inv := (c: Chain, hs: seq<H256>, j: nat) => Chasing(cr, a, h, c, hs, j);
    ChasingKept(cr, a, h, inv);
    ExchangeKeeps(Answer(cr, a), inv, b, req, k);
    QuietMeansStored(cr, a, Exchange(Answer(cr, a), b, req, k).chain, Asking([]), 0, 1, h);
  }

  // ----- The announcement

  lemma AnnouncementAsks(cr: Crypto, a: Chain, b: Chain, hs: seq<H256>, k: nat)
    requires Inv(cr, a) && Inv(cr, b) && forall h :: h in hs ==> h in a.blocks && a.heights[h] <= k
    ensures Asks(a, Missing(b, hs), k)
  {
    MissingExactly(b, hs);
    forall h | h in Missing(b, hs) ensures h in a.blocks && h in a.heights && 1 <= a.heights[h] <= k {
      assert Linked(cr, a, h);
    }
  }

  /** The blocks of `a`, of `b` and of `b`'s buffer are among `o`. */
  ghost predicate Within(cr: Crypto, a: Chain, b: Chain, o: set<Block>) {
    StoredOnly(cr, a, o) && StoredOnly(cr, b, o) && forall x: Block :: Waiting(b, x) ==> x in o
  }

  ghost predicate AsksWithin(cr: Crypto, a: Chain, o: set<Block>, c: Chain, req: seq<H256>, j: nat) {
    Inv(cr, c) && Asks(a, req, j) && Within(cr, a, c, o)
  }

  lemma AsksWithinStep(cr: Crypto, a: Chain, o: set<Block>, c: Chain, req: seq<H256>, j: nat)
    requires Inv(cr, a) && AsksWithin(cr, a, o, c, req, j) && req != []
    ensures j >= 1
    ensures var t := Answer(cr, a)(c, req); AsksWithin(cr, a, o, t.chain, t.missing, j - 1)
  {
    RoundAsks(cr, a, c, req, j);
    RoundWithin(cr, a, c, req, j, o);
  }

  lemma AsksWithinKept(cr: Crypto, a: Chain, o: set<Block>, inv: (Chain, seq<H256>, nat) -> bool)
    requires Inv(cr, a)
    requires forall c: Chain, req: seq<H256>, j: nat :: inv(c, req, j) <==> AsksWithin(cr, a, o, c, req, j)
    ensures Kept(Answer(cr, a), inv)
  {
    forall c: Chain, req: seq<H256>, j: nat | inv(c, req, j) && req != []
      ensures j >= 1 && inv(Answer(cr, a)(c, req).chain, Answer(cr, a)(c, req).missing, j - 1)
    {
      AsksWithinStep(cr, a, o, c, req, j);
    }
  }

  lemma ExchangeWithin(cr: Crypto, a: Chain, b: Chain, req: seq<H256>, k: nat, o: set<Block>)
    requires Inv(cr, a) && Inv(cr, b) && Asks(a, req, k) && Within(cr, a, b, o)
    ensures StoredOnly(cr, Exchange(Answer(cr, a), b, req, k).chain, o)
  {
    var inv := (c: Chain, hs: seq<H256>, j: nat) => AsksWithin(cr, a, o, c, hs, j);
    AsksWithinKept(cr, a, o, inv);
    ExchangeKeeps(Answer(cr, a), inv, b, req, k);
  }

  lemma {:induction false} RoundWithin(cr: Crypto, a: Chain, b: Chain, req: seq<H256>, k: nat, o: set<Block>)
    requires Inv(cr, a) && Inv(cr, b) && Ready(b) && Asks(a, req, k) && Within(cr, a, b, o)
    ensures Within(cr, a, ReceiveAll(cr, b, Stored(a, req)).chain, o)
  {
    var bs := Stored(a, req);
    var c := ReceiveAll(cr, b, bs).chain;
    ReceiveAllInv(cr, b, bs);
    StoredExactly(a, req);
    forall x | x in bs ensures x in o {
      var h :| h in req && Contains(a, h) && a.blocks[h] == x;
    }
    forall h | h in c.blocks && h != Root(cr) ensures c.blocks[h] in o {
      ReceiveAllStores(cr, b, bs, h);
    }
    forall x: Block | Waiting(c, x) ensures x in o {
      ReceiveAllOrigin(cr, b, bs, x);
    }
  }

  /** A stored block has its ancestors stored with it: the whole path to it in one store is in the other. */
  lemma {:induction false} AncestorsToo(cr: Crypto, a: Chain, c: Chain, o: set<Block>, h: H256, i: nat)
    requires Inv(cr, a) && Inv(cr, c) && StoredOnly(cr, a, o) && StoredOnly(cr, c, o) && CollisionFree(cr, o)
    requires h in a.blocks && h in c.blocks && i < |PathTo(cr, a, h)|
    ensures PathTo(cr, a, h)[i] in c.blocks
    decreases a.heights[h]
  {
    if a.heights[h] == 0 {
    } else {
      assert Linked(cr, a, h);
      var parent := a.blocks[h].header.parent;
      if i < |PathTo(cr, a, parent)| {
        SameHeader(cr, a, c, o, h);
        assert h != Root(cr) ==> Linked(cr, c, h);
        AncestorsToo(cr, a, c, o, parent, i);
      }
    }
  }

  /** Node A announces stored hashes of height at most `k`; A's store does not change. Then the exchange with
      any node B stops within `k` `Blocks` messages, and B stores every announced hash. If equal hashes mean
      equal headers, B also stores all the ancestors, and its tip is at least as high as each of them. */
  lemma {:induction false} BackfillConverges(cr: Crypto, a: Chain, b: Chain, hs: seq<H256>, k: nat, h: H256,
          o: set<Block>)
    requires Inv(cr, a) && Inv(cr, b) && h in hs && forall x :: x in hs ==> x in a.blocks && a.heights[x] <= k
    ensures Asks(a, Missing(b, hs), k)
    ensures var r := Exchange(Answer(cr, a), b, Missing(b, hs), k);
      && r.left == [] && r.replies <= k && Inv(cr, r.chain) && h in r.chain.blocks
      && (Within(cr, a, b, o) && CollisionFree(cr, o) ==>
        && (forall i :: 0 <= i < |PathTo(cr, a, h)| ==> PathTo(cr, a, h)[i] in r.chain.blocks)
        && r.chain.heights[r.chain.tip] >= a.heights[h])
  {
    AnnouncementAsks(cr, a, b, hs, k);
    var req := Missing(b, hs);
    MissingExactly(b, hs);
    assert InHand(cr, b, Asking(req), 0, 1, h) by {
      if h !in b.blocks {
        assert Carries(cr, Envelope(1, 0, GetBlocks(req)), 0, 1, h);
      }
    }
    ExchangeFetches(cr, a, b, req, k, h);
    var c := Exchange(Answer(cr, a), b, req, k).chain;
    if Within(cr, a, b, o) && CollisionFree(cr, o) {
      ExchangeWithin(cr, a, b, req, k, o);
      forall i | 0 <= i < |PathTo(cr, a, h)| ensures PathTo(cr, a, h)[i] in c.blocks {
        AncestorsToo(cr, a, c, o, h, i);
      }
      SameHeight(cr, a, c, o, h);
    }
  }
}
