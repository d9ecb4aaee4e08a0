/** The remainder operator of C, which the hash functions of all three stores are made of. */
module CRemainder {

  lemma ModBounds(a: nat, n: nat)
    requires n > 0
    ensures 0 <= a % n < n
    ensures a < n ==> a % n == a
  {
    if a < n {
      assert a == (a / n) * n + a % n;
    }
  }

  /** `a % n` in C: it takes the sign of the dividend. */
  function Rem(a: int, n: nat): (r: int)
    requires n > 0
    ensures r < n && 0 < r + n
    ensures 0 <= a < n ==> r == a
    ensures a >= 0 ==> r >= 0
    ensures a < 0 ==> r <= 0
  {
    if a >= 0 then ModBounds(a, n); a % n else ModBounds(-a, n); -((-a) % n)
  }

  lemma MulAtLeast(d: int, m: int)
    requires d > 0 && m > 0
    ensures d * m >= m
  {
  }

  lemma RemIs(k: int, m: int, q: int, r: int)
    requires 0 <= r < m && k == q * m + r
    ensures k % m == r
  {
    var q', r' := k / m, k % m;
    assert (q' - q) * m == r - r' && (q - q') * m == r' - r;
    if q' > q {
      MulAtLeast(q' - q, m);
    } else if q > q' {
      MulAtLeast(q - q', m);
    }
  }

  /** Taking away the divisor keeps the remainder. */
  lemma RemLess(k: nat, m: nat)
    requires 0 < m <= k
    ensures Rem(k, m) == Rem(k - m, m)
  {
    var q, r := (k - m) / m, (k - m) % m;
    assert k == (q + 1) * m + r;
    RemIs(k, m, q + 1, r);
  }

  /** C's remainder is the only number closer to zero than the divisor, without the opposite sign of the dividend,
      that differs from the dividend by a multiple of the divisor. */
  lemma RemUnique(a: int, n: nat, q: int, r: int)
    requires n > 0
    ensures a == q * n + r && r < n && 0 < r + n && (a >= 0 ==> r >= 0) && (a <= 0 ==> r <= 0) ==> r == Rem(a, n)
    ensures exists k :: a == k * n + Rem(a, n)
  {
    if a >= 0 {
      if a == q * n + r && 0 <= r < n { RemIs(a, n, q, r); }
      assert a == (a / n) * n + Rem(a, n);
    } else {
      if a == q * n + r && r <= 0 < r + n {
        assert -a == (-q) * n + (-r);
        RemIs(-a, n, -q, -r);
      }
      assert -a == ((-a) / n) * n + (-a) % n;
      assert a == (-((-a) / n)) * n + Rem(a, n);
    }
  }
}
