/** Bytes, and their reading as big-endian numbers (`from_be_bytes` / `to_be_bytes`). */
module Bytes {

  type Byte = x: int | 0 <= x < 256

  function Pow256(n: nat): (p: nat)
    ensures p > 0
  {
    if n == 0 then 1 else 256 * Pow256(n - 1)
  }

  /** The number whose big-endian digits, in base 256, are `s`. */
  function FromBe(s: seq<Byte>): nat {
    if s == [] then 0 else 256 * FromBe(s[..|s| - 1]) + s[|s| - 1]
  }

  /** The base-256 digit of `n` that counts 256^k. */
  function Digit(n: nat, k: nat): Byte {
    if k == 0 then n % 256 else Digit(n / 256, k - 1)
  }

  /** The `len` low-order big-endian digits of `n`: a cast that truncates. */
  function ToBe(n: nat, len: nat): (s: seq<Byte>)
    ensures |s| == len
  {
    seq(len, i requires 0 <= i < len => Digit(n, len - 1 - i))
  }

  /** Reading the truncated digits back gives the number modulo 256^len. */
  lemma {:induction false} ToBeThenFromBe(n: nat, len: nat)
    ensures FromBe(ToBe(n, len)) == n % Pow256(len)
  {
    if len == 0 {
    } else {
      var s, init := ToBe(n, len), ToBe(n / 256, len - 1);
      assert s[..len - 1] == init by {
        assert forall i :: 0 <= i < len - 1 ==> s[i] == Digit(n, len - 1 - i) == Digit(n / 256, len - 2 - i);
      }
      assert s[len - 1] == Digit(n, 0);
      ToBeThenFromBe(n / 256, len - 1);
      ModSplit(n, Pow256(len - 1));
    }
  }

  lemma {:induction false} ModSplit(n: nat, p: nat)
    requires p > 0
    ensures n % (256 * p) == 256 * ((n / 256) % p) + n % 256
  {
    var q, r := (n / 256) / p, (n / 256) % p;
    var low := 256 * r + n % 256;
    assert 256 * (q * p) == q * (256 * p);
    assert n == q * (256 * p) + low;
    assert 256 * r <= 256 * (p - 1);
    ModUnique(n, 256 * p, q, low);
  }

  lemma {:induction false} ModUnique(n: nat, d: nat, q: nat, r: nat)
    requires r < d && n == q * d + r
    ensures n % d == r
  {
    var q', r' := n / d, n % d;
    assert n == q' * d + r';
    MulGap(q, q', d);
    MulGap(q', q, d);
  }

  lemma MulGap(lo: nat, hi: nat, d: nat)
    requires d > 0
    ensures lo < hi ==> lo * d + d <= hi * d
  {
    if lo < hi {
      assert (lo + 1) * d <= hi * d;
    }
  }

  /** Equal-length digit strings with equal values are equal. */
  lemma {:induction false} FromBeInjective(a: seq<Byte>, b: seq<Byte>)
    requires |a| == |b| && FromBe(a) == FromBe(b)
    ensures a == b
  {
    if a == [] {
    } else {
      FromBeInjective(a[..|a| - 1], b[..|b| - 1]);
      assert a == a[..|a| - 1] + [a[|a| - 1]];
      assert b == b[..|b| - 1] + [b[|b| - 1]];
    }
  }

  // ----- Cutting sequences

  lemma SplitAt(s: seq<Byte>, n: nat) returns (a: seq<Byte>, b: seq<Byte>)
    requires n <= |s|
    ensures s == a + b && |a| == n
  {
    a, b := s[..n], s[n..];
  }

  /** A prefix of `a + b` that reaches past `a` is `a` and a prefix of `b`. */
  lemma SplitPrefix(a: seq<Byte>, b: seq<Byte>, s: seq<Byte>) returns (rest: seq<Byte>)
    requires s <= a + b && |a| <= |s|
    ensures s == a + rest && rest <= b
  {
    rest := s[|a|..];
  }
}
