/** The statement of a range proof in its published form. */
module RangeForm {
  import opened Scalars
  import opened Sums
  import opened VecOps
  import opened WipArgument
  import opened RangeStatement
  import opened RangeReduction

  lemma {:induction false} DotOfCongruent(u: seq<int>, u': seq<int>, v: seq<int>)
    requires |u| == |u'| == |v|
    requires forall i | 0 <= i < |u| :: Cong(u[i], u'[i])
    ensures Cong(Dot(u, v), Dot(u', v))
  {
    hide Reduce, Dot;
    if |u| == 0 {
      assert u == u';
    } else {
      var n := |u| - 1;
      DotOfCongruent(u[..n], u'[..n], v[..n]);
      DotStep(u, v);
      DotStep(u', v);
      CongTimes(v[n], u[n], u'[n]);
      CongAdd(Dot(u[..n], v[..n]), Dot(u'[..n], v[..n]), u[n] * v[n], u'[n] * v[n]);
    }
  }

  lemma {:induction false} DotOfRepeated(s: int, u: seq<int>, v: seq<int>)
    requires |u| == |v| && forall i | 0 <= i < |u| :: u[i] == s
    ensures Dot(u, v) == s * Sum(v)
  {
    hide Dot;
    if |v| == 0 {
      assert u == [] && v == [];
      EmptyDot();
    } else {
      var n := |v| - 1;
      DotOfRepeated(s, u[..n], v[..n]);
      DotStep(u, v);
      assert s * (Sum(v[..n]) + v[n]) == s * Sum(v[..n]) + s * v[n];
    }
  }

  /** One less than the next power of two. */
  lemma {:induction false} SumOfPowers(n: nat)
    ensures Cong(Sum(Powers(n)), Pow2(n) - 1)
  {
    hide Reduce, Power;
    if n > 0 {
      SumOfPowers(n - 1);
      assert Powers(n)[..n - 1] == Powers(n - 1);
      PowerOfTwoCong(n - 1);
      CongAdd(Sum(Powers(n - 1)), Pow2(n - 1) - 1, Power(Two(), n - 1), Pow2(n - 1));
    }
  }

  /** The multiple of `h` that closes the statement. */
  lemma LastTermForm(y: Scalar, z: Scalar, n: nat)
    ensures Cong(LastTerm(y, z, n), (z - z * z) * Sum(Weights(y, n)) - Power(y, n + 1) * (z * (Pow2(n) - 1)))
  {
    hide Reduce, Weights, Powers, Power, Sum, Pow2;
    var s, p, top: int := Sum(Weights(y, n)), Sum(Powers(n)), Power(y, n + 1);
    LastTermValue(Reduce(s), s, Reduce(p), p, Power(y, n + 1), z);
    SumOfPowers(n);
    CongTimes(z, p, Pow2(n) - 1);
    CongTimes(top, z * p, z * (Pow2(n) - 1));
    CongSub((z - z * z) * s, (z - z * z) * s, top * (z * p), top * (z * (Pow2(n) - 1)));
  }

  /** The scalars of the `g` generators: powers of two against descending powers of `y`. */
  ghost function GScalars(y: Scalar, z: Scalar, n: nat): (s: seq<int>)
    ensures |s| == n
  {
    seq(n, i requires 0 <= i < n => Pow2(i) * (Power(y, n - i) as int) + z)
  }

  lemma GScalarsForm(y: Scalar, z: Scalar, n: nat, g: seq<Point>)
    requires |g| == n
    ensures Cong(Dot(AddAll(Descending(y, n), Repeat(z, n)), g), Dot(GScalars(y, z, n), g))
  {
    hide Reduce, Dot, Power, Pow2;
    var u, u' := AddAll(Descending(y, n), Repeat(z, n)), GScalars(y, z, n);
    forall i | 0 <= i < n ensures Cong(u[i], u'[i]) {
      PowerOfTwoCong(i);
      CongTimes(Power(y, n - i), Power(Two(), i), Pow2(i));
      Reduced(Power(Two(), i) * Power(y, n - i));
      AddCong(Descending(y, n)[i], z);
      CongAdd(Descending(y, n)[i], Pow2(i) * (Power(y, n - i) as int), z, z);
    }
    DotOfCongruent(u, u', g);
  }

  /** A_hat = A - z*sum(h) + <2^i*y^(n-i) + z, g> + y^(n+1)*V
              + ((z - z^2)*(y + .. + y^n) - y^(n+1)*z*(2^n - 1))*H. */
  lemma AHatForm(gens: Generators, v: Point, a: Point, y: Scalar, z: Scalar)
    requires |gens.hBold| == |gens.gBold|
    ensures var n := |gens.hBold|;
            Cong(AHat(gens, v, a, y, z),
                 a - z * Sum(gens.hBold) + Dot(GScalars(y, z, n), gens.gBold) + Power(y, n + 1) * v
                 + ((z - z * z) * Sum(Weights(y, n)) - Power(y, n + 1) * (z * (Pow2(n) - 1))) * gens.h)
  {
    hide Reduce, Dot, Power, Pow2, Sum, GScalars, Weights, AddAll, Descending;
    var n := |gens.hBold|;
    var closing := (z - z * z) * Sum(Weights(y, n)) - Power(y, n + 1) * (z * (Pow2(n) - 1));
    Reduced(AHatSum(gens, v, a, y, z));
    DotOfRepeated(Neg(z), Repeat(Neg(z), n), gens.hBold);
    Reduced(0 - z);
    CongTimes(Sum(gens.hBold), Neg(z), 0 - z);
    GScalarsForm(y, z, n, gens.gBold);
    LastTermForm(y, z, n);
    CongTimes(gens.h, LastTerm(y, z, n), closing);
    hide LastTerm, Neg;
    Gathered(a, Neg(z) * Sum(gens.hBold), (0 - z) * Sum(gens.hBold),
             Dot(AddAll(Descending(y, n), Repeat(z, n)), gens.gBold), Dot(GScalars(y, z, n), gens.gBold),
             Power(y, n + 1) * v, LastTerm(y, z, n) * gens.h, closing * gens.h);
    assert (0 - z) * Sum(gens.hBold) == -(z * Sum(gens.hBold));
  }

  lemma Gathered(a: int, h: int, h': int, g: int, g': int, v: int, l: int, l': int)
    requires Cong(h, h') && Cong(g, g') && Cong(l, l')
    ensures Cong(a + h + g + v + l, a + h' + g' + v + l')
  {
    hide Reduce;
    CongAdd4(a + v, a + v, h, h', g, g', l, l');
  }
}
