/** 256-bit digests and the order on them (src/crypto/hash.rs). */
module Hash {
  import opened Bytes

  type Bytes32 = s: seq<Byte> | |s| == 32 witness seq(32, _ => 0)
  datatype H256 = H256(bytes: Bytes32)

  datatype Ordering = Less | Equal | Greater

  function CmpNat(a: nat, b: nat): Ordering {
    if a < b then Less else if a == b then Equal else Greater
  }

  /** `Ord::cmp`: the high 128 bits decide, and the low 128 bits break the tie. */
  function Cmp(a: H256, b: H256): Ordering {
    var higher := CmpNat(FromBe(a.bytes[..16]), FromBe(b.bytes[..16]));
    if higher.Equal? then CmpNat(FromBe(a.bytes[16..]), FromBe(b.bytes[16..])) else higher
  }

  predicate Leq(a: H256, b: H256) {
    !Cmp(a, b).Greater?
  }

  /** The 256-bit big-endian number a digest stands for. */
  function Value(a: H256): nat {
    FromBe(a.bytes)
  }

  /** Byte-by-byte comparison from the front. */
  function LexCmp(a: seq<Byte>, b: seq<Byte>): Ordering
    requires |a| == |b|
  {
    if a == [] then Equal
    else if a[0] == b[0] then LexCmp(a[1..], b[1..])
    else CmpNat(a[0], b[0])
  }

  lemma {:induction false} LexConcat(a: seq<Byte>, b: seq<Byte>, c: seq<Byte>, d: seq<Byte>)
    requires |a| == |b| && |c| == |d|
    ensures LexCmp(a + c, b + d) == if LexCmp(a, b).Equal? then LexCmp(c, d) else LexCmp(a, b)
  {
    if a == [] {
      assert a + c == c && b + d == d;
    } else {
      assert (a + c)[1..] == a[1..] + c && (b + d)[1..] == b[1..] + d;
      LexConcat(a[1..], b[1..], c, d);
    }
  }

  lemma {:induction false} LexIsNumeric(a: seq<Byte>, b: seq<Byte>)
    requires |a| == |b|
    ensures LexCmp(a, b) == CmpNat(FromBe(a), FromBe(b))
  {
    if a == [] {
    } else {
      var n := |a| - 1;
      LexIsNumeric(a[..n], b[..n]);
      LexConcat(a[..n], b[..n], [a[n]], [b[n]]);
      assert a == a[..n] + [a[n]] && b == b[..n] + [b[n]];
    }
  }

  /** Comparing the two halves in turn is byte-lexicographic comparison of all 32 bytes. */
  lemma CmpIsLexicographic(a: H256, b: H256)
    ensures Cmp(a, b) == LexCmp(a.bytes, b.bytes)
  {
    var ah, al, bh, bl := a.bytes[..16], a.bytes[16..], b.bytes[..16], b.bytes[16..];
    LexIsNumeric(ah, bh);
    LexIsNumeric(al, bl);
    LexConcat(ah, bh, al, bl);
    assert a.bytes == ah + al && b.bytes == bh + bl;
  }

  /** It is also comparison of the two 256-bit numbers. */
  lemma CmpIsNumeric(a: H256, b: H256)
    ensures Cmp(a, b) == CmpNat(Value(a), Value(b))
    ensures Cmp(a, b).Less? <==> Value(a) < Value(b)
    ensures Cmp(a, b).Equal? <==> Value(a) == Value(b)
    ensures Cmp(a, b).Greater? <==> Value(a) > Value(b)
  {
    CmpIsLexicographic(a, b);
    LexIsNumeric(a.bytes, b.bytes);
  }

  /** `a <= b` as the source writes it is `<=` of the two numbers. */
  lemma LeqIsNumeric(a: H256, b: H256)
    ensures Leq(a, b) <==> Value(a) <= Value(b)
  {
    CmpIsNumeric(a, b);
  }

  /** The order is total, antisymmetric and transitive, and `Equal` means the same 32 bytes. */
  lemma CmpIsTotalOrder(a: H256, b: H256, c: H256)
    ensures Cmp(a, b).Equal? <==> a == b
    ensures Cmp(a, b).Less? <==> Cmp(b, a).Greater?
    ensures Leq(a, b) || Leq(b, a)
    ensures Leq(a, b) && Leq(b, a) ==> a == b
    ensures Leq(a, b) && Leq(b, c) ==> Leq(a, c)
  {
    CmpIsNumeric(a, b);
    CmpIsNumeric(b, a);
    CmpIsNumeric(b, c);
    CmpIsNumeric(a, c);
    if Value(a) == Value(b) {
      FromBeInjective(a.bytes, b.bytes);
    }
  }
}
