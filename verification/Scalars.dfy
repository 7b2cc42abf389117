/** Scalars and points of a cyclic group, in the source secp256k1.

    A scalar is the canonical representative of a residue class modulo the group
    order. The group is cyclic, so a point is represented by its discrete
    logarithm to the base point: adding points adds logarithms and multiplying a
    point by a scalar multiplies them.

    Identities are proved on plain integers up to `Cong`, congruence modulo the
    order; `Canonical` turns a congruence of scalars into an equality. */
module Scalars {

  type Modulus = n: int | 1 < n witness 2

  // The order of the group. Nothing below depends on its value.
  const ORDER: Modulus

  type Scalar = x: int | 0 <= x < ORDER witness 0
  type Point = Scalar

  const IDENTITY: Point := 0

  function Reduce(x: int): Scalar {
    x % ORDER
  }

  function Add(a: Scalar, b: Scalar): Scalar {
    Reduce(a + b)
  }

  function Sub(a: Scalar, b: Scalar): Scalar {
    Reduce(a - b)
  }

  function Neg(a: Scalar): Scalar {
    Reduce(0 - a)
  }

  function Mul(a: Scalar, b: Scalar): Scalar {
    Reduce(a * b)
  }

  function Square(a: Scalar): Scalar {
    Mul(a, a)
  }

  /** Congruence modulo the group order. */
  ghost predicate Cong(a: int, b: int) {
    Reduce(a) == Reduce(b)
  }

  ghost predicate Invertible(a: Scalar) {
    exists i: Scalar :: Mul(a, i) == 1
  }

  /** The inverse the source obtains with `invert().expect(..)`. */
  function Inverse(a: Scalar): (i: Scalar)
    requires Invertible(a)
    ensures Mul(a, i) == 1
  {
    InverseIsUnique(a);
    var i: Scalar :| Mul(a, i) == 1;
    i
  }

  // ---------- congruence

  /** Division with remainder is unique. */
  lemma RemainderUnique(x: int, k: int, r: int)
    requires x == k * ORDER + r && 0 <= r < ORDER
    ensures Reduce(x) == r
  {
    var d := k - x / ORDER;
    assert x == (x / ORDER) * ORDER + x % ORDER;
    assert d * ORDER == x % ORDER - r;
    assert d >= 1 ==> d * ORDER >= ORDER;
    assert d <= -1 ==> d * ORDER + ORDER <= 0;
  }

  function Quotient(x: int): int {
    x / ORDER
  }

  lemma Divided(x: int)
    ensures x == Quotient(x) * ORDER + Reduce(x)
  {
  }

  lemma Multiple(a: int, b: int, k: int)
    requires a == b + k * ORDER
    ensures Cong(a, b)
  {
    hide Reduce, Quotient;
    Divided(b);
    assert (Quotient(b) + k) * ORDER == Quotient(b) * ORDER + k * ORDER;
    RemainderUnique(a, Quotient(b) + k, Reduce(b));
  }

  /** The multiple of the order by which two congruent integers differ. */
  lemma Difference(a: int, b: int) returns (k: int)
    requires Cong(a, b)
    ensures a == b + k * ORDER
  {
    hide Reduce, Quotient;
    Divided(a);
    Divided(b);
    k := Quotient(a) - Quotient(b);
    assert k * ORDER == Quotient(a) * ORDER - Quotient(b) * ORDER;
  }

  lemma Reduced(a: int)
    ensures Cong(Reduce(a), a)
  {
    hide Reduce, Quotient;
    Divided(a);
    RemainderUnique(Reduce(a), 0, Reduce(a));
  }

  lemma Canonical(a: Scalar, b: Scalar)
    requires Cong(a, b)
    ensures a == b
  {
    hide Reduce;
    RemainderUnique(a, 0, a);
    RemainderUnique(b, 0, b);
  }

  lemma CongAdd(a: int, b: int, c: int, d: int)
    requires Cong(a, b) && Cong(c, d)
    ensures Cong(a + c, b + d)
  {
    hide Reduce;
    var k := Difference(a, b);
    var l := Difference(c, d);
    assert (k + l) * ORDER == k * ORDER + l * ORDER;
    Multiple(a + c, b + d, k + l);
  }

  lemma CongNeg(a: int, b: int)
    requires Cong(a, b)
    ensures Cong(-a, -b)
  {
    hide Reduce;
    var k := Difference(a, b);
    assert (-k) * ORDER == -(k * ORDER);
    Multiple(-a, -b, -k);
  }

  lemma CongSub(a: int, b: int, c: int, d: int)
    requires Cong(a, b) && Cong(c, d)
    ensures Cong(a - c, b - d)
  {
    hide Reduce;
    CongNeg(c, d);
    CongAdd(a, b, -c, -d);
  }

  lemma CongMul(a: int, b: int, c: int, d: int)
    requires Cong(a, b) && Cong(c, d)
    ensures Cong(a * c, b * d)
  {
    hide Reduce;
    var k := Difference(a, b);
    var l := Difference(c, d);
    assert a * c == b * c + (k * c) * ORDER by { ShiftProduct(a, b, k, c); }
    assert c * b == d * b + (l * b) * ORDER by { ShiftProduct(c, d, l, b); }
    assert (k * c + l * b) * ORDER == (k * c) * ORDER + (l * b) * ORDER;
    Multiple(a * c, b * d, k * c + l * b);
  }

  lemma ShiftProduct(a: int, b: int, k: int, c: int)
    requires a == b + k * ORDER
    ensures a * c == b * c + (k * c) * ORDER
  {
    assert a * c == b * c + (k * ORDER) * c;
    assert (k * ORDER) * c == (k * c) * ORDER;
  }

  lemma CongTimes(x: int, a: int, b: int)
    requires Cong(a, b)
    ensures Cong(x * a, x * b) && Cong(a * x, b * x)
  {
    hide Reduce;
    CongMul(x, x, a, b);
    CongMul(a, b, x, x);
  }

  lemma CongAdd4(a: int, a': int, b: int, b': int, c: int, c': int, d: int, d': int)
    requires Cong(a, a') && Cong(b, b') && Cong(c, c') && Cong(d, d')
    ensures Cong(a + b + c + d, a' + b' + c' + d')
  {
    hide Reduce;
    CongAdd(a, a', b, b');
    CongAdd(a + b, a' + b', c, c');
    CongAdd(a + b + c, a' + b' + c', d, d');
  }

  /** A factor congruent to one can be dropped. */
  lemma DropUnit(u: int, x: int)
    requires Cong(u, 1)
    ensures Cong(u * x, x)
  {
    hide Reduce;
    CongTimes(x, u, 1);
  }

  lemma InverseCong(a: Scalar)
    requires Invertible(a)
    ensures Cong(a * Inverse(a), 1)
  {
    hide Reduce;
    Reduced(a * Inverse(a));
  }

  lemma InverseIsUnique(a: Scalar)
    ensures forall i: Scalar, j: Scalar :: Mul(a, i) == 1 && Mul(a, j) == 1 ==> i == j
  {
    forall i: Scalar, j: Scalar | Mul(a, i) == 1 && Mul(a, j) == 1
      ensures i == j
    {
      CancelInverse(a, i, j);
    }
  }

  lemma CancelInverse(a: Scalar, i: Scalar, j: Scalar)
    requires Mul(a, i) == 1 && Mul(a, j) == 1
    ensures i == j
  {
    hide Reduce;
    Reduced(a * i);
    Reduced(a * j);
    DropUnit(a * i, j);
    DropUnit(a * j, i);
    assert (a * i) * j == (a * j) * i;
    Canonical(i, j);
  }

  /** An invertible factor of a multiple of the order can be cancelled. */
  lemma CancelFactor(a: Scalar, x: int)
    requires Invertible(a)
    requires Cong(a * x, 0)
    ensures Cong(x, 0)
  {
    hide Reduce;
    var i := Inverse(a);
    InverseCong(a);
    CongTimes(i, a * x, 0);
    assert (a * x) * i == (a * i) * x;
    DropUnit(a * i, x);
  }

  lemma ProductOfInverses(a: Scalar, b: Scalar, i: Scalar, j: Scalar)
    requires Mul(a, i) == 1 && Mul(b, j) == 1
    ensures Mul(Mul(a, b), Mul(i, j)) == 1
  {
    hide Reduce;
    Reduced(a * i);
    Reduced(b * j);
    Reduced(a * b);
    Reduced(i * j);
    CongMul(Mul(a, b), a * b, Mul(i, j), i * j);
    Cross(a, b, i, j);
    CongMul(a * i, 1, b * j, 1);
    Reduced(Mul(a, b) * Mul(i, j));
    Canonical(Mul(Mul(a, b), Mul(i, j)), 1);
  }

  lemma InvertibleProduct(a: Scalar, b: Scalar)
    requires Invertible(a) && Invertible(b)
    ensures Invertible(Mul(a, b))
  {
    hide Mul;
    ProductOfInverses(a, b, Inverse(a), Inverse(b));
  }

  // ---------- powers

  function Power(y: Scalar, n: nat): Scalar {
    if n == 0 then 1 else Mul(Power(y, n - 1), y)
  }

  lemma PowerSum(y: Scalar, m: nat, n: nat)
    ensures Cong(Power(y, m) * Power(y, n), Power(y, m + n))
  {
    hide Reduce;
    if n > 0 {
      PowerSum(y, m, n - 1);
      var p, r := Power(y, m), Power(y, n - 1);
      Reduced(r * y);
      CongTimes(p, Power(y, n), r * y);
      assert p * (r * y) == (p * r) * y;
      CongTimes(y, p * r, Power(y, m + n - 1));
      Reduced(Power(y, m + n - 1) * y);
    }
  }

  lemma PowerInvertible(y: Scalar, n: nat)
    requires Invertible(y)
    ensures Invertible(Power(y, n))
  {
    hide Reduce;
    if n == 0 {
      RemainderUnique(1, 0, 1);
      assert Mul(1, 1) == 1;
    } else {
      PowerInvertible(y, n - 1);
      InvertibleProduct(Power(y, n - 1), y);
    }
  }

  // ---------- products of integers

  lemma Cross(a: int, b: int, c: int, d: int)
    ensures (a * b) * (c * d) == (a * c) * (b * d)
  {
  }

  lemma Foil(a: int, b: int, c: int, d: int)
    ensures (a + b) * (c + d) == a * c + a * d + b * c + b * d
  {
  }

  lemma Distribute4(a: int, b: int, c: int, d: int, w: int)
    ensures (a + b + c + d) * w == a * w + b * w + c * w + d * w
  {
  }
}
