/** Transactions and blocks (src/transaction.rs, src/block.rs), and the foreign functions they rest on. */
module Blocks {
  import opened Bytes
  import opened Hash

  /** Names one output of a transaction. */
  datatype TransactionInput = TransactionInput(txid: nat, prevTx: H256)

  datatype Address = Address(bytes: seq<Byte>)
  datatype TransactionOutput = TransactionOutput(recipient: Address, value: H256)

  datatype Transaction = Transaction(inputs: seq<TransactionInput>, outputs: seq<TransactionOutput>)
  datatype SignedTransaction = SignedTransaction(raw: Transaction, pubKey: seq<Byte>, signature: seq<Byte>)

  datatype Header = Header(parent: H256, nonce: nat, difficulty: H256, timestamp: nat, merkleRoot: H256)
  datatype Content = Content(transactions: seq<SignedTransaction>)
  datatype Block = Block(header: Header, content: Content)

  /** The unspent outputs. */
  type State = map<TransactionInput, TransactionOutput>

  /** SHA-256 of a serialised header and of a serialised transaction, and the three addresses that own the
      initial coins: arbitrary functions, so that everything here holds whatever they are. */
  datatype Crypto = Crypto(header: Header -> H256, tx: Transaction -> H256, owner: nat -> Address)

  /** 32 bytes, all equal to `b`. */
  function Repeated(b: Byte): H256 {
    H256(seq(32, _ => b))
  }

  function DefaultDifficulty(): H256 {
    H256(Repeated(0).bytes[0 := 1])
  }

  function Genesis(): Block {
    Block(Header(Repeated(0), 0, DefaultDifficulty(), 0, Repeated(0)), Content([]))
  }

  /** A block is hashed by its header alone. */
  function BlockHash(cr: Crypto, b: Block): H256 {
    cr.header(b.header)
  }

  /** Whatever the header says is hashed, and the content is not: if no two headers collide, two blocks have one
      hash if and only if they have one header. */
  lemma HashNamesHeader(cr: Crypto, a: Block, b: Block)
    requires cr.header(a.header) == cr.header(b.header) ==> a.header == b.header
    ensures BlockHash(cr, a) == BlockHash(cr, b) <==> a.header == b.header
  {
  }

  function Hashes(cr: Crypto, bs: seq<Block>): seq<H256> {
    if bs == [] then [] else Hashes(cr, bs[..|bs| - 1]) + [BlockHash(cr, bs[|bs| - 1])]
  }

  lemma {:induction false} HashesAt(cr: Crypto, bs: seq<Block>)
    ensures |Hashes(cr, bs)| == |bs|
    ensures forall i :: 0 <= i < |bs| ==> Hashes(cr, bs)[i] == BlockHash(cr, bs[i])
  {
    if bs == [] {
    } else {
      HashesAt(cr, bs[..|bs| - 1]);
    }
  }

  lemma {:induction false} RepeatedValue(b: Byte, n: nat)
    ensures 255 * FromBe(seq(n, _ => b)) == b * (Pow256(n) - 1)
  {
    if n == 0 {
    } else {
      assert seq(n, _ => b)[..n - 1] == seq(n - 1, _ => b);
      RepeatedValue(b, n - 1);
      Distribute(b, Pow256(n - 1));
    }
  }

  /** As a number, 32 bytes of `b` are `b` times (256^32 - 1) / 255. */
  lemma ValueOfRepeated(b: Byte)
    ensures 255 * Value(Repeated(b)) == b * (Pow256(32) - 1)
  {
    RepeatedValue(b, 32);
  }

  lemma Distribute(b: int, p: int)
    ensures b * (256 * p - 1) == 256 * (b * (p - 1)) + 255 * b
  {
  }

  lemma {:induction false} LeadingDigit(s: seq<Byte>)
    requires s != [] && forall i :: 0 < i < |s| ==> s[i] == 0
    ensures FromBe(s) == s[0] * Pow256(|s| - 1)
  {
    if |s| == 1 {
      assert s[..0] == [];
    } else {
      LeadingDigit(s[..|s| - 1]);
    }
  }

  /** The default difficulty is the number 256^31, so that one hash in 256 is low enough. */
  lemma DifficultyValue()
    ensures Value(DefaultDifficulty()) == Pow256(31)
  {
    LeadingDigit(DefaultDifficulty().bytes);
  }

  /** The genesis block has no parent, nonce, time, Merkle root or content to speak of. */
  lemma GenesisIsBlank()
    ensures var header := Genesis().header;
      && Value(header.parent) == 0 && Value(header.merkleRoot) == 0 && Value(header.difficulty) == Pow256(31)
      && header.nonce == 0 && header.timestamp == 0 && Genesis().content.transactions == []
  {
    RepeatedValue(0, 32);
    DifficultyValue();
  }

  function Root(cr: Crypto): H256 {
    BlockHash(cr, Genesis())
  }
}
