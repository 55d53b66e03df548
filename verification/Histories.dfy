/** Whole histories of transactions: what they spend, create and pay, and why nothing is spent or created
    twice. A history is the list of transactions along one path from the genesis block. */
module Histories {
  import opened Hash
  import opened Blocks
  import opened Ledger
  import opened Sequences

  /** The outpoints a transaction creates, in order. */
  function Outpoints(cr: Crypto, tx: SignedTransaction): (s: seq<TransactionInput>)
    ensures |s| == |tx.raw.outputs|
  {
    seq(|tx.raw.outputs|, i requires 0 <= i => Outpoint(cr.tx(tx.raw), i))
  }

  function AllSpent(txs: seq<SignedTransaction>): seq<TransactionInput> {
    if txs == [] then [] else AllSpent(txs[..|txs| - 1]) + txs[|txs| - 1].raw.inputs
  }

  function AllCreated(cr: Crypto, txs: seq<SignedTransaction>): seq<TransactionInput> {
    if txs == [] then [] else AllCreated(cr, txs[..|txs| - 1]) + Outpoints(cr, txs[|txs| - 1])
  }

  /** Each transaction, when it is executed, spends different outpoints that are all unspent. */
  ghost predicate WellSpent(cr: Crypto, s: State, txs: seq<SignedTransaction>) {
    txs == [] ||
    var init, last := txs[..|txs| - 1], txs[|txs| - 1];
    WellSpent(cr, s, init) && Spends(ApplyAll(cr, s, init), last.raw.inputs) && |last.raw.outputs| <= 0x1_0000_0000
  }

  // ----- Value

  ghost function Consumed(cr: Crypto, s: State, txs: seq<SignedTransaction>): nat
    requires WellSpent(cr, s, txs)
  {
    if txs == [] then 0
    else
      var init, last := txs[..|txs| - 1], txs[|txs| - 1];
      Consumed(cr, s, init) + InputValue(ApplyAll(cr, s, init), last.raw.inputs)
  }

  function Produced(txs: seq<SignedTransaction>): nat {
    if txs == [] then 0 else Produced(txs[..|txs| - 1]) + OutputValue(txs[|txs| - 1].raw.outputs)
  }

  /** Each transaction's outpoints are new when it is executed. */
  ghost predicate AllFresh(cr: Crypto, s: State, txs: seq<SignedTransaction>) {
    txs == [] ||
    var init, last := txs[..|txs| - 1], txs[|txs| - 1];
    AllFresh(cr, s, init) && Fresh(cr, ApplyAll(cr, s, init), last)
  }

  /** The total value grows by what is paid out and shrinks by what is consumed; it can only come out lower
      than that when an existing outpoint is overwritten. */
  lemma {:induction false} ValueBalance(cr: Crypto, s: State, txs: seq<SignedTransaction>)
    requires WellSpent(cr, s, txs)
    ensures var r := Total(ApplyAll(cr, s, txs)) + Consumed(cr, s, txs);
      && r <= Total(s) + Produced(txs)
      && (AllFresh(cr, s, txs) ==> r == Total(s) + Produced(txs))
  {
    if txs == [] {
    } else {
      var init := txs[..|txs| - 1];
      ValueBalance(cr, s, init);
      TxValue(cr, ApplyAll(cr, s, init), txs[|txs| - 1]);
    }
  }

  /** No transaction pays out more than it consumes. */
  ghost predicate Covered(cr: Crypto, s: State, txs: seq<SignedTransaction>)
    requires WellSpent(cr, s, txs)
  {
    txs == [] ||
    var init, last := txs[..|txs| - 1], txs[|txs| - 1];
    Covered(cr, s, init) && OutputValue(last.raw.outputs) <= InputValue(ApplyAll(cr, s, init), last.raw.inputs)
  }

  lemma {:induction false} SupplyNeverGrows(cr: Crypto, s: State, txs: seq<SignedTransaction>)
    requires WellSpent(cr, s, txs) && Covered(cr, s, txs)
    ensures Total(ApplyAll(cr, s, txs)) <= Total(s)
  {
    if txs == [] {
    } else {
      var init := txs[..|txs| - 1];
      SupplyNeverGrows(cr, s, init);
      TxValue(cr, ApplyAll(cr, s, init), txs[|txs| - 1]);
    }
  }

  /** An outpoint that no transaction of the history names keeps its output. */
  lemma {:induction false} OthersUntouched(cr: Crypto, s: State, txs: seq<SignedTransaction>, k: TransactionInput)
    requires WellSpent(cr, s, txs)
    requires k !in AllSpent(txs) && k !in AllCreated(cr, txs)
    ensures k in ApplyAll(cr, s, txs) <==> k in s
    ensures k in s ==> ApplyAll(cr, s, txs)[k] == s[k]
  {
    if txs == [] {
    } else {
      var init, last := txs[..|txs| - 1], txs[|txs| - 1];
      OthersUntouched(cr, s, init, k);
      TxEffect(cr, ApplyAll(cr, s, init), last);
      OutpointsExactly(cr, last, k);
    }
  }

  lemma OutpointsExactly(cr: Crypto, tx: SignedTransaction, k: TransactionInput)
    requires |tx.raw.outputs| <= 0x1_0000_0000
    ensures k in Outpoints(cr, tx) <==> Created(cr.tx(tx.raw), |tx.raw.outputs|, k)
    ensures Distinct(Outpoints(cr, tx))
  {
    var s := Outpoints(cr, tx);
    assert forall i :: 0 <= i < |s| ==> s[i] == TransactionInput(i, cr.tx(tx.raw));
    if Created(cr.tx(tx.raw), |tx.raw.outputs|, k) {
      assert s[k.txid] == k;
    }
  }

  // ----- Nothing twice

  /** Different transactions of the history have different hashes, none of them has the hash that names the
      initial coins, and none creates outputs without spending anything. */
  ghost predicate Sensible(cr: Crypto, initial: H256, txs: seq<SignedTransaction>) {
    && (forall i, j :: 0 <= i < |txs| && 0 <= j < |txs| && cr.tx(txs[i].raw) == cr.tx(txs[j].raw) ==>
        txs[i].raw == txs[j].raw)
    && (forall i :: 0 <= i < |txs| ==> cr.tx(txs[i].raw) != initial)
    && (forall i :: 0 <= i < |txs| && txs[i].raw.outputs != [] ==> txs[i].raw.inputs != [])
  }

  /** Every created outpoint is named after a transaction of the history. */
  ghost predicate Traced(cr: Crypto, txs: seq<SignedTransaction>) {
    forall k :: k in AllCreated(cr, txs) ==> NamedAfter(cr, txs, k)
  }

  ghost predicate NamedAfter(cr: Crypto, txs: seq<SignedTransaction>, k: TransactionInput) {
    exists i :: 0 <= i < |txs| && txs[i].raw.outputs != [] && cr.tx(txs[i].raw) == k.prevTx
  }

  /** The unspent outpoints are those that were there at first or were created, less those that were spent. */
  ghost predicate Balanced(cr: Crypto, s: State, txs: seq<SignedTransaction>) {
    var spent, created, now := AllSpent(txs), AllCreated(cr, txs), ApplyAll(cr, s, txs);
    && (forall k :: k in now <==> (k in s || k in created) && k !in spent)
    && (forall k :: k in spent ==> k in s || k in created)
  }

  /** Nothing is spent twice or created twice, and nothing that was there at first is created. */
  ghost predicate NoRepeats(cr: Crypto, s: State, txs: seq<SignedTransaction>) {
    && Distinct(AllSpent(txs)) && Distinct(AllCreated(cr, txs))
    && (forall k :: k in AllCreated(cr, txs) ==> k !in s)
  }

  lemma {:induction false} SpentMember(txs: seq<SignedTransaction>, i: nat, k: TransactionInput)
    requires i < |txs| && k in txs[i].raw.inputs
    ensures k in AllSpent(txs)
  {
    if i < |txs| - 1 {
      SpentMember(txs[..|txs| - 1], i, k);
    }
  }

  /** A history in good order, and one more transaction that spends unspent outpoints. */
  ghost predicate CanExtend(cr: Crypto, initial: H256, s: State, txs: seq<SignedTransaction>, tx: SignedTransaction) {
    && Traced(cr, txs) && Balanced(cr, s, txs) && NoRepeats(cr, s, txs)
    && Sensible(cr, initial, txs + [tx])
    && Spends(ApplyAll(cr, s, txs), tx.raw.inputs) && |tx.raw.outputs| <= 0x1_0000_0000
    && (forall k :: k in s ==> k.prevTx == initial)
  }

  /** A transaction whose inputs are unspent has not been executed before: its outpoints are new. */
  lemma OutpointsAreNew(cr: Crypto, initial: H256, s: State, txs: seq<SignedTransaction>, tx: SignedTransaction,
          k: TransactionInput)
    requires CanExtend(cr, initial, s, txs, tx) && k in Outpoints(cr, tx)
    ensures k !in AllCreated(cr, txs) && k !in s
  {
    OutpointsExactly(cr, tx, k);
    SensiblePrefix(cr, initial, txs, tx);
    if k in AllCreated(cr, txs) {
      assert NamedAfter(cr, txs, k);
      var i :| 0 <= i < |txs| && txs[i].raw.outputs != [] && cr.tx(txs[i].raw) == k.prevTx;
      assert (txs + [tx])[i] == txs[i] && (txs + [tx])[|txs|] == tx;
      SpentMember(txs, i, tx.raw.inputs[0]);
    }
  }

  lemma StepUnfolds(cr: Crypto, s: State, txs: seq<SignedTransaction>, tx: SignedTransaction)
    ensures AllSpent(txs + [tx]) == AllSpent(txs) + tx.raw.inputs
    ensures AllCreated(cr, txs + [tx]) == AllCreated(cr, txs) + Outpoints(cr, tx)
    ensures ApplyAll(cr, s, txs + [tx]) == ApplyTx(cr, ApplyAll(cr, s, txs), tx)
  {
    assert (txs + [tx])[..|txs|] == txs;
  }

  lemma TracedStep(cr: Crypto, txs: seq<SignedTransaction>, tx: SignedTransaction)
    requires Traced(cr, txs) && |tx.raw.outputs| <= 0x1_0000_0000
    ensures Traced(cr, txs + [tx])
  {
    var all := txs + [tx];
    StepUnfolds(cr, map[], txs, tx);
    forall k | k in AllCreated(cr, all) ensures NamedAfter(cr, all, k) {
      if k in AllCreated(cr, txs) {
        assert NamedAfter(cr, txs, k);
        var i :| 0 <= i < |txs| && txs[i].raw.outputs != [] && cr.tx(txs[i].raw) == k.prevTx;
        assert all[i] == txs[i];
      } else {
        OutpointsExactly(cr, tx, k);
        assert all[|txs|] == tx;
      }
    }
  }

  lemma NoRepeatsStep(cr: Crypto, initial: H256, s: State, txs: seq<SignedTransaction>, tx: SignedTransaction)
    requires CanExtend(cr, initial, s, txs, tx)
    ensures NoRepeats(cr, s, txs + [tx])
  {
    var outs := Outpoints(cr, tx);
    StepUnfolds(cr, s, txs, tx);
    forall k | k in outs ensures k !in AllCreated(cr, txs) && k !in s {
      OutpointsAreNew(cr, initial, s, txs, tx, k);
    }
    DistinctConcat(AllSpent(txs), tx.raw.inputs);
    OutpointsExactly(cr, tx, TransactionInput(0, initial));
    DistinctConcat(AllCreated(cr, txs), outs);
  }

  lemma {:induction false} BalancedStep(cr: Crypto, initial: H256, s: State, txs: seq<SignedTransaction>,
          tx: SignedTransaction)
    requires CanExtend(cr, initial, s, txs, tx)
    ensures Balanced(cr, s, txs + [tx])
  {
    var all := txs + [tx];
    StepUnfolds(cr, s, txs, tx);
    TxEffect(cr, ApplyAll(cr, s, txs), tx);
    forall k ensures k in ApplyAll(cr, s, all) <==> (k in s || k in AllCreated(cr, all)) && k !in AllSpent(all) {
      OutpointsExactly(cr, tx, k);
      if k in Outpoints(cr, tx) {
        OutpointsAreNew(cr, initial, s, txs, tx, k);
      }
    }
  }

  /** Along a sensible history in which every transaction spends unspent outpoints, no outpoint is ever
      spent twice or created twice, and every transaction's outpoints are new. */
  lemma {:induction false} NothingTwice(cr: Crypto, initial: H256, s: State, txs: seq<SignedTransaction>)
    requires WellSpent(cr, s, txs) && Sensible(cr, initial, txs)
    requires forall k :: k in s ==> k.prevTx == initial
    ensures NoRepeats(cr, s, txs) && Balanced(cr, s, txs) && Traced(cr, txs)
    ensures AllFresh(cr, s, txs)
  {
    if txs == [] {
    } else {
      var init, last := txs[..|txs| - 1], txs[|txs| - 1];
      assert txs == init + [last];
      SensiblePrefix(cr, initial, init, last);
      NothingTwice(cr, initial, s, init);
      NoRepeatsStep(cr, initial, s, init, last);
      BalancedStep(cr, initial, s, init, last);
      TracedStep(cr, init, last);
      forall k | k in ApplyAll(cr, s, init) ensures !Created(cr.tx(last.raw), |last.raw.outputs|, k) {
        OutpointsExactly(cr, last, k);
        if k in Outpoints(cr, last) {
          OutpointsAreNew(cr, initial, s, init, last, k);
        }
      }
    }
  }

  lemma SensiblePrefix(cr: Crypto, initial: H256, txs: seq<SignedTransaction>, tx: SignedTransaction)
    requires Sensible(cr, initial, txs + [tx])
    ensures Sensible(cr, initial, txs)
    ensures cr.tx(tx.raw) != initial
  {
    var all := txs + [tx];
    assert forall i :: 0 <= i < |txs| ==> txs[i] == all[i];
    assert all[|txs|] == tx;
  }
}
