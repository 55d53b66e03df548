/** How transactions change the unspent outputs (src/blockchain.rs:149-171), what they do to the total
    value, and why nothing is spent or created twice along a chain. */
module Ledger {
  import opened Hash
  import opened Blocks
  import opened Sequences

  const U32 := 0x1_0000_0000

  // ----- The transition

  function RemoveInputs(s: State, inputs: seq<TransactionInput>): State {
    if inputs == [] then s else RemoveInputs(s, inputs[..|inputs| - 1]) - {inputs[|inputs| - 1]}
  }

  /** The outpoint of the output at index `i`; the counter is a wrapping 32-bit number. */
  function Outpoint(txHash: H256, i: nat): TransactionInput {
    TransactionInput(i % U32, txHash)
  }

  function AddOutputs(s: State, txHash: H256, outputs: seq<TransactionOutput>): State {
    if outputs == [] then s
    else
      var i := |outputs| - 1;
      AddOutputs(s, txHash, outputs[..i])[Outpoint(txHash, i) := outputs[i]]
  }

  function ApplyTx(cr: Crypto, s: State, tx: SignedTransaction): State {
    AddOutputs(RemoveInputs(s, tx.raw.inputs), cr.tx(tx.raw), tx.raw.outputs)
  }

  function ApplyAll(cr: Crypto, s: State, txs: seq<SignedTransaction>): State {
    if txs == [] then s else ApplyTx(cr, ApplyAll(cr, s, txs[..|txs| - 1]), txs[|txs| - 1])
  }

  lemma {:induction false} ApplyConcat(cr: Crypto, s: State, a: seq<SignedTransaction>, b: seq<SignedTransaction>)
    ensures ApplyAll(cr, s, a + b) == ApplyAll(cr, ApplyAll(cr, s, a), b)
  {
    if b == [] {
      assert a + b == a;
    } else {
      var init := b[..|b| - 1];
      assert (a + b)[..|a + b| - 1] == a + init;
      ApplyConcat(cr, s, a, init);
    }
  }

  // ----- What it leaves

  lemma {:induction false} RemovedExactly(s: State, inputs: seq<TransactionInput>)
    ensures RemoveInputs(s, inputs) == map k | k in s && k !in inputs :: s[k]
  {
    if inputs == [] {
    } else {
      var init, last := inputs[..|inputs| - 1], inputs[|inputs| - 1];
      assert inputs == init + [last];
      RemovedExactly(s, init);
    }
  }

  predicate Created(txHash: H256, n: nat, k: TransactionInput) {
    k.prevTx == txHash && k.txid < n
  }

  lemma OutpointIndex(txHash: H256, i: nat)
    requires i < 0x1_0000_0000
    ensures Outpoint(txHash, i) == TransactionInput(i, txHash)
  {
  }

  lemma {:induction false} AddedAt(s: State, txHash: H256, outputs: seq<TransactionOutput>, k: TransactionInput)
    requires |outputs| <= 0x1_0000_0000
    ensures var r := AddOutputs(s, txHash, outputs);
      && (k in r <==> k in s || Created(txHash, |outputs|, k))
      && (k in r ==> r[k] == if Created(txHash, |outputs|, k) then outputs[k.txid] else s[k])
  {
    if outputs == [] {
    } else {
      var i := |outputs| - 1;
      OutpointIndex(txHash, i);
      AddedAt(s, txHash, outputs[..i], k);
    }
  }

  lemma AddedExactly(s: State, txHash: H256, outputs: seq<TransactionOutput>)
    requires |outputs| <= 0x1_0000_0000
    ensures var r := AddOutputs(s, txHash, outputs);
      && (forall k :: k in r <==> k in s || Created(txHash, |outputs|, k))
      && (forall k :: k in r ==> r[k] == if Created(txHash, |outputs|, k) then outputs[k.txid] else s[k])
  {
    forall k ensures var r := AddOutputs(s, txHash, outputs);
      && (k in r <==> k in s || Created(txHash, |outputs|, k))
      && (k in r ==> r[k] == if Created(txHash, |outputs|, k) then outputs[k.txid] else s[k])
    {
      AddedAt(s, txHash, outputs, k);
    }
  }

  /** A transaction removes its inputs, adds one outpoint per output, and touches nothing else. */
  lemma TxEffect(cr: Crypto, s: State, tx: SignedTransaction)
    requires |tx.raw.outputs| <= 0x1_0000_0000
    ensures var r, h, n := ApplyTx(cr, s, tx), cr.tx(tx.raw), |tx.raw.outputs|;
      && (forall k :: k in r <==> (k in s && k !in tx.raw.inputs) || Created(h, n, k))
      && (forall k :: k in r ==> r[k] == if Created(h, n, k) then tx.raw.outputs[k.txid] else s[k])
  {
    RemovedExactly(s, tx.raw.inputs);
    AddedExactly(RemoveInputs(s, tx.raw.inputs), cr.tx(tx.raw), tx.raw.outputs);
  }

  /** Afterwards the i-th output is held under index `i` and the transaction's hash. */
  lemma OutputsHeld(cr: Crypto, s: State, tx: SignedTransaction, i: nat)
    requires |tx.raw.outputs| <= 0x1_0000_0000 && i < |tx.raw.outputs|
    ensures var r, k := ApplyTx(cr, s, tx), TransactionInput(i, cr.tx(tx.raw));
      k in r && r[k] == tx.raw.outputs[i]
  {
    TxEffect(cr, s, tx);
    assert Created(cr.tx(tx.raw), |tx.raw.outputs|, TransactionInput(i, cr.tx(tx.raw)));
  }

  // ----- Value

  function Amount(o: TransactionOutput): nat {
    Value(o.value)
  }

  ghost function Total(s: State): nat {
    if s == map[] then 0
    else
      var k :| k in s;
      Amount(s[k]) + Total(s - {k})
  }

  /** The value of one output alone is the 256-bit number it carries. */
  lemma TotalOfOne(k: TransactionInput, o: TransactionOutput)
    ensures Total(map[k := o]) == Value(o.value)
  {
    TotalInsert(map[], k, o);
  }

  lemma {:induction false} TotalRemove(s: State, k: TransactionInput)
    requires k in s
    ensures Total(s) == Amount(s[k]) + Total(s - {k})
    decreases |s|
  {
    var j :| j in s && Total(s) == Amount(s[j]) + Total(s - {j});
    if j != k {
      TotalRemove(s - {j}, k);
      TotalRemove(s - {k}, j);
      assert s - {j} - {k} == s - {k} - {j};
    }
  }

  lemma TotalInsert(s: State, k: TransactionInput, o: TransactionOutput)
    ensures Total(s[k := o]) <= Total(s) + Amount(o)
    ensures k !in s ==> Total(s[k := o]) == Total(s) + Amount(o)
  {
    TotalRemove(s[k := o], k);
    if k in s {
      TotalRemove(s, k);
      assert s[k := o] - {k} == s - {k};
    } else {
      assert s[k := o] - {k} == s;
    }
  }

  /** The inputs are pairwise different and all unspent. */
  ghost predicate Spends(s: State, inputs: seq<TransactionInput>) {
    Distinct(inputs) && forall k :: k in inputs ==> k in s
  }

  function InputValue(s: State, inputs: seq<TransactionInput>): nat
    requires forall k :: k in inputs ==> k in s
  {
    if inputs == [] then 0
    else InputValue(s, inputs[..|inputs| - 1]) + Amount(s[inputs[|inputs| - 1]])
  }

  function OutputValue(outputs: seq<TransactionOutput>): nat {
    if outputs == [] then 0
    else OutputValue(outputs[..|outputs| - 1]) + Amount(outputs[|outputs| - 1])
  }

  lemma {:induction false} RemoveValue(s: State, inputs: seq<TransactionInput>)
    requires Spends(s, inputs)
    ensures Total(RemoveInputs(s, inputs)) + InputValue(s, inputs) == Total(s)
  {
    if inputs == [] {
    } else {
      var init, last := inputs[..|inputs| - 1], inputs[|inputs| - 1];
      RemoveValue(s, init);
      RemovedExactly(s, init);
      TotalRemove(RemoveInputs(s, init), last);
    }
  }

  lemma {:induction false} AddValue(s: State, txHash: H256, outputs: seq<TransactionOutput>)
    requires |outputs| <= 0x1_0000_0000
    ensures Total(AddOutputs(s, txHash, outputs)) <= Total(s) + OutputValue(outputs)
    ensures (forall k :: k in s ==> !Created(txHash, |outputs|, k)) ==>
      Total(AddOutputs(s, txHash, outputs)) == Total(s) + OutputValue(outputs)
  {
    if outputs == [] {
    } else {
      var i := |outputs| - 1;
      AddValue(s, txHash, outputs[..i]);
      OutpointIndex(txHash, i);
      AddedAt(s, txHash, outputs[..i], Outpoint(txHash, i));
      TotalInsert(AddOutputs(s, txHash, outputs[..i]), Outpoint(txHash, i), outputs[i]);
      assert Created(txHash, |outputs|, Outpoint(txHash, i));
    }
  }

  /** No outpoint of this transaction exists yet. */
  ghost predicate Fresh(cr: Crypto, s: State, tx: SignedTransaction) {
    forall k :: k in s ==> !Created(cr.tx(tx.raw), |tx.raw.outputs|, k)
  }

  lemma TxValue(cr: Crypto, s: State, tx: SignedTransaction)
    requires Spends(s, tx.raw.inputs) && |tx.raw.outputs| <= 0x1_0000_0000
    ensures var r := Total(ApplyTx(cr, s, tx)) + InputValue(s, tx.raw.inputs);
      && r <= Total(s) + OutputValue(tx.raw.outputs)
      && (Fresh(cr, s, tx) ==> r == Total(s) + OutputValue(tx.raw.outputs))
  {
    RemoveValue(s, tx.raw.inputs);
    RemovedExactly(s, tx.raw.inputs);
    AddValue(RemoveInputs(s, tx.raw.inputs), cr.tx(tx.raw), tx.raw.outputs);
  }
}
