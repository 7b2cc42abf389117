/** The statement of a range proof: the value committed to in a point fits in `n` bits, where `n`
    is the number of base generators. */
module RangeStatement {
  import opened Scalars
  import opened Modulo
  import opened Sums
  import opened VecOps
  import opened WipArgument

  function Commit(gens: Generators, v: Scalar, r: Scalar): Point {
    Add(Mul(gens.h, v), Mul(gens.g, r))
  }

  function Pow2(n: nat): (p: nat)
    ensures p > 0
  {
    if n == 0 then 1 else 2 * Pow2(n - 1)
  }

  /** Every power of two is a size. */
  lemma {:induction false} EverySize(k: nat)
    ensures PowerOfTwo(Pow2(k))
  {
    if k > 0 {
      EverySize(k - 1);
      assert Pow2(k) / 2 == Pow2(k - 1);
    }
  }

  // ---------- the bits of the value

  function Bit(value: nat, i: nat): nat {
    value / Pow2(i) % 2
  }

  method CalculateAL(value: nat, size: nat) returns (output: seq<Scalar>)
    ensures |output| == size
    ensures forall i | 0 <= i < size :: output[i] == Bit(value, i)
  {
    hide Pow2;
    output := [];
    for i := 0 to size
      invariant |output| == i
      invariant forall k | 0 <= k < i :: output[k] == Bit(value, k)
    {
      output := output + [Bit(value, i)];
    }
  }

  function Low(value: nat, n: nat): nat {
    value % Pow2(n)
  }

  lemma LowStep(value: nat, n: nat)
    ensures Low(value, n) + Bit(value, n) * Pow2(n) == Low(value, n + 1)
  {
    hide Pow2;
    BitAbove(value, Pow2(n));
    Pow2Step(n);
  }

  lemma Pow2Step(n: nat)
    ensures Pow2(n + 1) == 2 * Pow2(n)
  {
  }

  lemma LowWhole(value: nat, n: nat)
    ensures Low(value, 0) == 0
    ensures value < Pow2(n) ==> Low(value, n) == value
  {
    if value < Pow2(n) {
      ModuloUnique(value, Pow2(n), 0, value);
    }
  }

  lemma {:induction false} LowBits(value: nat, n: nat, bits: seq<int>, powers: seq<int>)
    requires |bits| == |powers| == n
    requires forall i | 0 <= i < n :: bits[i] == Bit(value, i)
    requires forall i | 0 <= i < n :: powers[i] == Pow2(i)
    ensures Dot(bits, powers) == Low(value, n)
  {
    LowWhole(value, n);
    hide Low, Bit, Pow2;
    if n > 0 {
      LowBits(value, n - 1, bits[..n - 1], powers[..n - 1]);
      DotStep(bits, powers);
      LowStep(value, n - 1);
    }
  }

  lemma BitAbove(value: nat, p: nat)
    requires p > 0
    ensures value % p + (value / p % 2) * p == value % (2 * p)
  {
    var q, r := value / p, value % p;
    assert value == q * p + r;
    var h, b := q / 2, q % 2;
    assert q * p == h * (2 * p) + b * p by { assert q == 2 * h + b; assert (2 * h + b) * p == (2 * h) * p + b * p; assert (2 * h) * p == h * (2 * p); }
    assert 0 <= r + b * p < 2 * p;
    ModuloUnique(value, 2 * p, h, r + b * p);
  }

  /** The bits of a value in range add up to the value. */
  lemma BitsSumToValue(value: nat, n: nat, bits: seq<int>, powers: seq<int>)
    requires value < Pow2(n) && |bits| == |powers| == n
    requires forall i | 0 <= i < n :: bits[i] == Bit(value, i)
    requires forall i | 0 <= i < n :: powers[i] == Pow2(i)
    ensures Dot(bits, powers) == value
  {
    LowWhole(value, n);
    hide Low, Bit, Pow2, Dot;
    LowBits(value, n, bits, powers);
  }

  // ---------- the statement

  function Two(): Scalar {
    Reduce(2)
  }

  /** The powers of two below 2^n. */
  function Powers(n: nat): (p: seq<Scalar>)
    ensures |p| == n
  {
    seq(n, i requires 0 <= i < n => Power(Two(), i))
  }

  /** 2^i times y^(n-i). */
  function Descending(y: Scalar, n: nat): (d: seq<Scalar>)
    ensures |d| == n
  {
    seq(n, i requires 0 <= i < n => Mul(Power(Two(), i), Power(y, n - i)))
  }

  function Repeat(s: Scalar, n: nat): (r: seq<Scalar>)
    ensures |r| == n
  {
    seq(n, _ => s)
  }

  function LastTerm(y: Scalar, z: Scalar, n: nat): Scalar {
    var ySum := Reduce(Sum(Weights(y, n)));
    var pSum := Reduce(Sum(Powers(n)));
    Sub(Sub(Mul(ySum, z), Mul(Mul(pSum, Power(y, n + 1)), z)), Mul(ySum, Square(z)))
  }

  /** What the argument is about, for the commitment `v` and the point `a`. */
  function AHatSum(gens: Generators, v: int, a: int, y: Scalar, z: Scalar): int
    requires |gens.hBold| == |gens.gBold|
  {
    var n := |gens.hBold|;
    a + Dot(Repeat(Neg(z), n), gens.hBold) + Dot(AddAll(Descending(y, n), Repeat(z, n)), gens.gBold)
    + Power(y, n + 1) * v + LastTerm(y, z, n) * gens.h
  }

  function AHat(gens: Generators, v: Point, a: Point, y: Scalar, z: Scalar): Point
    requires |gens.hBold| == |gens.gBold|
  {
    Reduce(AHatSum(gens, v, a, y, z))
  }

  /** Pushes alternating terms for the two generator vectors. */
  method PushPairs(gens: Generators, negZ: Scalar, scalars: seq<Scalar>) returns (terms: Terms)
    requires |gens.hBold| == |gens.gBold| == |scalars|
    ensures Total(terms) == Dot(Repeat(negZ, |scalars|), gens.hBold) + Dot(scalars, gens.gBold)
  {
    hide Reduce, Dot, Repeat;
    terms := [];
    NoDots(gens, negZ, scalars);
    for i := 0 to |scalars|
      invariant Total(terms) == Dot(Repeat(negZ, i), gens.hBold[..i]) + Dot(scalars[..i], gens.gBold[..i])
    {
      TotalSnoc(terms, negZ, gens.hBold[i]);
      terms := terms + [(negZ, gens.hBold[i])];
      TotalSnoc(terms, scalars[i], gens.gBold[i]);
      terms := terms + [(scalars[i], gens.gBold[i])];
      NextDots(gens, negZ, scalars, i);
    }
    assert gens.hBold[..|scalars|] == gens.hBold && scalars[..|scalars|] == scalars && gens.gBold[..|scalars|] == gens.gBold;
  }

  lemma NoDots(gens: Generators, negZ: Scalar, scalars: seq<Scalar>)
    ensures Dot(Repeat(negZ, 0), gens.hBold[..0]) == 0 == Dot(scalars[..0], gens.gBold[..0])
  {
  }

  lemma NextDots(gens: Generators, negZ: Scalar, scalars: seq<Scalar>, i: nat)
    requires i < |scalars| == |gens.hBold| == |gens.gBold|
    ensures Dot(Repeat(negZ, i + 1), gens.hBold[..i + 1]) == Dot(Repeat(negZ, i), gens.hBold[..i]) + negZ * gens.hBold[i]
    ensures Dot(scalars[..i + 1], gens.gBold[..i + 1]) == Dot(scalars[..i], gens.gBold[..i]) + (scalars[i] as int) * gens.gBold[i]
  {
    hide Reduce;
    DotStep(Repeat(negZ, i + 1), gens.hBold[..i + 1]);
    DotStep(scalars[..i + 1], gens.gBold[..i + 1]);
    assert Repeat(negZ, i + 1)[..i] == Repeat(negZ, i) && gens.hBold[..i + 1][..i] == gens.hBold[..i];
    assert scalars[..i + 1][..i] == scalars[..i] && gens.gBold[..i + 1][..i] == gens.gBold[..i];
  }

  method CalculateAHat(gens: Generators, v: Point, a: Point, y: Scalar, z: Scalar)
    returns (powersYInv: seq<Scalar>, yInvMul: Scalar, aHat: Point)
    requires gens.Valid()
    ensures powersYInv == Descending(y, |gens.hBold|)
    ensures yInvMul == Power(y, |gens.hBold| + 1)
    ensures aHat == AHat(gens, v, a, y, z)
  {
    hide Reduce, Mul, Sub, Neg, Dot, Sum, Total;
    var n := |gens.hBold|;
    var powers := NewPower(Two(), n);
    assert powers == Powers(n);
    PowerOne(y);
    var yVec := [y];
    for i := 1 to n
      invariant |yVec| == i
      invariant forall k | 0 <= k < i :: yVec[k] == Power(y, k + 1)
    {
      yVec := yVec + [Mul(yVec[i - 1], y)];
    }
    assert yVec == Weights(y, n);
    var yVecInv := seq(n, i requires 0 <= i < n => yVec[n - 1 - i]);
    yInvMul := Mul(yVecInv[0], y);
    var ySum := Reduce(Sum(yVec));
    powersYInv := MulAll(powers, yVecInv);
    assert powersYInv == Descending(y, n);
    var scalars := AddEach(powersYInv, z);
    assert scalars == AddAll(Descending(y, n), Repeat(z, n));
    var aTerms := PushPairs(gens, Neg(z), scalars);
    TotalSnoc(aTerms, yInvMul, v);
    aTerms := aTerms + [(yInvMul, v)];
    var lastTerm := Sub(Sub(Mul(ySum, z), Mul(Mul(Reduce(Sum(powers)), yInvMul), z)), Mul(ySum, Square(z)));
    TotalSnoc(aTerms, lastTerm, gens.h);
    aTerms := aTerms + [(lastTerm, gens.h)];
    aHat := Add(a, MultiExp(aTerms));
    AddedPoint(a, Total(aTerms));
  }

  lemma AddedPoint(a: Point, t: int)
    ensures Add(a, Reduce(t)) == Reduce(a + t)
  {
    hide Reduce;
    Reduced(t);
    CongAdd(a, a, Reduce(t), t);
  }
}
