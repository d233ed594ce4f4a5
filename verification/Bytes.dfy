/** Fixed-width integers as byte strings, both byte orders. */
module Bytes {
  import opened Prelude

  function Pow256(k: nat): (p: nat)
    ensures p > 0
  {
    if k == 0 then 1 else 256 * Pow256(k - 1)
  }

  lemma Widths()
    ensures Pow256(4) == U32_LIMIT
    ensures Pow256(8) == U64_LIMIT
  {
    assert Pow256(2) == 0x1_0000;
    assert Pow256(4) == 256 * (256 * Pow256(2));
    assert Pow256(6) == 256 * (256 * Pow256(4));
    assert Pow256(8) == 256 * (256 * Pow256(6));
  }

  /** The low `k` bytes of `n`, least significant first (`to_le_bytes`). */
  function Le(n: nat, k: nat): (s: seq<byte>)
    ensures |s| == k
  {
    if k == 0 then [] else [n % 256] + Le(n / 256, k - 1)
  }

  /** `from_le_bytes`. */
  function FromLe(s: seq<byte>): nat {
    if s == [] then 0 else s[0] + 256 * FromLe(s[1..])
  }

  /** The low `k` bytes of `n`, most significant first (`to_be_bytes`). */
  function Be(n: nat, k: nat): (s: seq<byte>)
    ensures |s| == k
  {
    if k == 0 then [] else Be(n / 256, k - 1) + [n % 256]
  }

  lemma SmallProduct(x: int, p: nat)
    requires -(p as int) < x * p < p
    ensures x == 0
  {
  }

  lemma UniqueQuotient(a: nat, q: nat, p: nat, r: nat, r': nat)
    requires a * p + r == q * p + r' && r < p && r' < p
    ensures a == q
  {
    assert (a - q) * p == r' - r;
    SmallProduct(a - q, p);
  }

  lemma Euclid(n: nat, p: nat)
    requires p > 0
    ensures n == n / p * p + n % p && n % p < p
  {
  }

  lemma Remainder(n: nat, m: nat, p: nat, qp: nat)
    requires m == n / 256 && 256 * qp <= n < 256 * qp + 256 * p
    ensures 0 <= m - qp < p
  {
  }

  lemma NestedQuotient(n: nat, p: nat, big: nat, q: nat)
    requires p > 0 && big == 256 * p && q * big <= n < q * big + big
    ensures n / 256 / p == q
  {
    var m, qp := n / 256, q * p;
    assert q * big == 256 * qp;
    Remainder(n, m, p, qp);
    Euclid(m, p);
    UniqueQuotient(m / p, q, p, m % p, m - qp);
  }

  lemma QuotientOf(n: nat, big: nat) returns (q: nat)
    requires big > 0
    ensures q == n / big && q * big <= n < q * big + big
  {
    Euclid(n, big);
    q := n / big;
  }

  /** Byte `i` has the weight 256^i. */
  lemma {:induction false} LeDigit(n: nat, k: nat, i: nat)
    requires i < k
    ensures Le(n, k)[i] == n / Pow256(i) % 256
    decreases k
  {
    if i > 0 {
      LeDigit(n / 256, k - 1, i - 1);
      var q := QuotientOf(n, Pow256(i));
      NestedQuotient(n, Pow256(i - 1), Pow256(i), q);
    }
  }

  /** Byte `i` has the weight 256^(k - 1 - i). */
  lemma {:induction false} BeDigit(n: nat, k: nat, i: nat)
    requires i < k
    ensures Be(n, k)[i] == n / Pow256(k - 1 - i) % 256
    decreases k
  {
    if i < k - 1 {
      BeDigit(n / 256, k - 1, i);
      var q := QuotientOf(n, Pow256(k - 1 - i));
      NestedQuotient(n, Pow256(k - 2 - i), Pow256(k - 1 - i), q);
    }
  }

  lemma {:induction false} LeRoundTrip(n: nat, k: nat)
    requires n < Pow256(k)
    ensures FromLe(Le(n, k)) == n
  {
    if k > 0 {
      LeRoundTrip(n / 256, k - 1);
      assert Le(n, k)[1..] == Le(n / 256, k - 1);
    }
  }

  lemma {:induction false} FromLeRoundTrip(s: seq<byte>)
    ensures FromLe(s) < Pow256(|s|)
    ensures Le(FromLe(s), |s|) == s
  {
    if s != [] {
      FromLeRoundTrip(s[1..]);
      assert FromLe(s) / 256 == FromLe(s[1..]) && FromLe(s) % 256 == s[0];
      assert s == [s[0]] + s[1..];
    }
  }

  lemma {:induction false} BeInjective(m: nat, n: nat, k: nat)
    requires m < Pow256(k) && n < Pow256(k)
    requires Be(m, k) == Be(n, k)
    ensures m == n
  {
    if k > 0 {
      var bm, bn := Be(m / 256, k - 1) + [m % 256], Be(n / 256, k - 1) + [n % 256];
      assert bm[k - 1] == m % 256 && bn[k - 1] == n % 256;
      assert Be(m / 256, k - 1) == bm[..k - 1] == bn[..k - 1] == Be(n / 256, k - 1);
      BeInjective(m / 256, n / 256, k - 1);
    }
  }
}
