module Modulo {

  lemma ModuloUnique(x: int, m: int, k: int, r: int)
    requires 0 <= r < m && x == k * m + r
    ensures x % m == r
  {
    var d := k - x / m;
    assert x == (x / m) * m + x % m;
    assert d * m == x % m - r;
    assert d >= 1 ==> d * m >= m;
    assert d <= -1 ==> d * m + m <= 0;
  }

  /** Wrapping at every step is wrapping once. */
  lemma WrapsOnce(a: nat, b: nat, limit: nat)
    requires limit > 0
    ensures (a % limit + b) % limit == (a + b) % limit
  {
    var r := (a % limit + b) % limit;
    var q := a / limit + (a % limit + b) / limit;
    assert a == a / limit * limit + a % limit;
    assert a % limit + b == (a % limit + b) / limit * limit + r;
    assert a + b == q * limit + r by {
      assert (a / limit) * limit + ((a % limit + b) / limit) * limit == q * limit;
    }
    ModuloUnique(a + b, limit, q, r);
  }

  lemma WrapsUnlessBelow(n: nat, limit: nat)
    requires limit > 0
    ensures n % limit <= n && n % limit < limit && (n % limit == n <==> n < limit)
  {
  }
}
