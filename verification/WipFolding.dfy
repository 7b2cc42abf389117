/** One prover round keeps the commitment, up to the L and R points it sends. */
module WipFolding {
  import opened Scalars
  import opened Sums
  import opened VecOps
  import opened WipArgument

  /** The four halves a round works on, with its challenge `p`, the weight
      `yn` of the middle and their inverses. */
  datatype Halves = Halves(a1: seq<Scalar>, a2: seq<Scalar>, b1: seq<Scalar>, b2: seq<Scalar>,
                           h1: seq<Point>, h2: seq<Point>, g1: seq<Point>, g2: seq<Point>,
                           p: Scalar, pInv: Scalar, yn: Scalar, ynInv: Scalar) {
    ghost predicate Valid() {
      && |a1| == |a2| == |b1| == |b2| == |h1| == |h2| == |g1| == |g2| >= 1
      && Mul(p, pInv) == 1 && Mul(yn, ynInv) == 1
    }

    function NextA(): seq<Scalar> {
      AddAll(Scale(a1, p), Scale(a2, Mul(yn, pInv)))
    }

    function NextB(): seq<Scalar> {
      AddAll(Scale(b1, pInv), Scale(b2, p))
    }

    function NextH(): seq<Point>
      requires |h1| == |h2| >= 1
    {
      FoldStep(h1 + h2, pInv, Mul(p, ynInv))
    }

    function NextG(): seq<Point>
      requires |g1| == |g2| >= 1
    {
      FoldStep(g1 + g2, p, pInv)
    }

    function NextAlpha(alpha: Scalar, dL: Scalar, dR: Scalar): Scalar {
      Add(alpha, Add(Mul(dL, Square(p)), Mul(dR, Square(pInv))))
    }

    /** The terms of the L point, blinded by `dL`, for the weights `w`. */
    function LTerms(gens: Generators, w: seq<Scalar>, dL: Scalar): Terms
      requires |a1| == |h2| && |b2| == |g1|
    {
      Zip(Scale(a1, ynInv), h2) + Zip(b2, g1) + [(Wip(a1, b2, w), gens.h), (dL, gens.g)]
    }

    function RTerms(gens: Generators, w: seq<Scalar>, dR: Scalar): Terms
      requires |a2| == |h1| && |b1| == |g2|
    {
      Zip(Scale(a2, yn), h1) + Zip(b1, g2) + [(Wip(Scale(a2, yn), b1, w), gens.h), (dR, gens.g)]
    }
  }

  // ---------- elements of the folded vectors

  lemma SumOfProducts(u: Scalar, s: Scalar, v: Scalar, t: Scalar)
    ensures Cong(Add(Mul(u, s), Mul(v, t)), s * u + t * v)
  {
    hide Reduce;
    Reduced(u * s);
    Reduced(v * t);
    CongAdd(Mul(u, s), u * s, Mul(v, t), v * t);
    Reduced(Mul(u, s) + Mul(v, t));
  }

  lemma CombinedElement(u: seq<Scalar>, s: Scalar, v: seq<Scalar>, t: Scalar, i: nat)
    requires i < |u| == |v|
    ensures Cong(AddAll(Scale(u, s), Scale(v, t))[i], s * u[i] + t * v[i])
  {
    SumOfProducts(u[i], s, v[i], t);
  }

  lemma FoldedElement(g1: seq<Point>, g2: seq<Point>, s0: Scalar, s1: Scalar, i: nat)
    requires i < |g1| == |g2|
    ensures Cong(FoldStep(g1 + g2, s0, s1)[i], s0 * g1[i] + s1 * g2[i])
  {
    hide Reduce;
    var gens, n := g1 + g2, |g1|;
    assert gens[i] == g1[i] && gens[n + i] == g2[i];
    assert FoldStep(gens, s0, s1)[i] == Reduce(s0 * gens[i] + s1 * gens[n + i]);
    Reduced(s0 * g1[i] + s1 * g2[i]);
  }

  /** The inner product of two folded vectors. */
  lemma FoldedDot(u: seq<Scalar>, v: seq<Scalar>, x: Scalar, y: Scalar,
                  g1: seq<Point>, g2: seq<Point>, s0: Scalar, s1: Scalar)
    requires |u| == |v| == |g1| == |g2| >= 1
    ensures Cong(Dot(AddAll(Scale(u, x), Scale(v, y)), FoldStep(g1 + g2, s0, s1)),
                 (x * s0) * Dot(u, g1) + (x * s1) * Dot(u, g2) + (y * s0) * Dot(v, g1) + (y * s1) * Dot(v, g2))
  {
    hide Reduce, Cong;
    var a, g := AddAll(Scale(u, x), Scale(v, y)), FoldStep(g1 + g2, s0, s1);
    forall i | 0 <= i < |a| ensures Cong(a[i], x * u[i] + y * v[i]) {
      CombinedElement(u, x, v, y, i);
    }
    forall i | 0 <= i < |a| ensures Cong(g[i], s0 * g1[i] + s1 * g2[i]) {
      FoldedElement(g1, g2, s0, s1, i);
    }
    Bilinear(a, g, u, v, g1, g2, x, y, s0, s1, Ones(|a|));
  }

  /** The weighted inner product of two folded vectors. */
  lemma FoldedWip(u: seq<Scalar>, v: seq<Scalar>, x: Scalar, y: Scalar,
                  s: seq<Scalar>, t: seq<Scalar>, s0: Scalar, s1: Scalar, w: seq<Scalar>)
    requires |u| == |v| == |s| == |t| <= |w|
    ensures Cong(WeightedDot(AddAll(Scale(u, x), Scale(v, y)), AddAll(Scale(s, s0), Scale(t, s1)), w),
                 (x * s0) * WeightedDot(u, s, w) + (x * s1) * WeightedDot(u, t, w)
                 + (y * s0) * WeightedDot(v, s, w) + (y * s1) * WeightedDot(v, t, w))
  {
    hide Reduce, Cong;
    var a, b := AddAll(Scale(u, x), Scale(v, y)), AddAll(Scale(s, s0), Scale(t, s1));
    forall i | 0 <= i < |a| ensures Cong(a[i], x * u[i] + y * v[i]) {
      CombinedElement(u, x, v, y, i);
    }
    forall i | 0 <= i < |a| ensures Cong(b[i], s0 * s[i] + s1 * t[i]) {
      CombinedElement(s, s0, t, s1, i);
    }
    Bilinear(a, b, u, v, s, t, x, y, s0, s1, w);
  }

  lemma ScaledDot(u: seq<Scalar>, s: Scalar, v: seq<Point>, w: seq<int>)
    requires |u| == |v| <= |w|
    ensures Cong(WeightedDot(Scale(u, s), v, w), s * WeightedDot(u, v, w))
  {
    hide Reduce;
    forall i | 0 <= i < |u| ensures Cong(Scale(u, s)[i], u[i] * s) {
      Reduced(u[i] * s);
    }
    DotScaled(u, s, Scale(u, s), v, w);
  }

  // ---------- coefficients

  lemma UnitCoefficient(p: Scalar, pInv: Scalar)
    requires Mul(p, pInv) == 1
    ensures Cong(p * pInv, 1)
  {
    hide Reduce;
    Reduced(p * pInv);
  }

  lemma SquareCoefficient(p: Scalar, c: Scalar)
    ensures Cong(p * p, Square(p))
    ensures Cong(p * Mul(p, c), Square(p) * c)
    ensures Cong(Mul(c, p) * p, Square(p) * c)
  {
    hide Reduce;
    Reduced(p * p);
    Reduced(p * c);
    assert c * p == p * c;
    CongTimes(p, Mul(p, c), p * c);
    CongTimes(c, p * p, Square(p));
    assert p * (p * c) == (p * p) * c;
  }

  lemma CrossCoefficient(p: Scalar, pInv: Scalar, yn: Scalar, ynInv: Scalar)
    requires Mul(p, pInv) == 1 && Mul(yn, ynInv) == 1
    ensures Cong(Mul(yn, pInv) * Mul(p, ynInv), 1)
  {
    hide Reduce;
    Reduced(p * pInv);
    Reduced(yn * ynInv);
    Reduced(p * ynInv);
    Reduced(yn * pInv);
    CongMul(Mul(yn, pInv), yn * pInv, Mul(p, ynInv), p * ynInv);
    UnitPairs(p, pInv, yn, ynInv);
    CongMul(p * pInv, 1, yn * ynInv, 1);
  }

  lemma MiddleCoefficient(p: Scalar, pInv: Scalar, yn: Scalar)
    requires Mul(p, pInv) == 1
    ensures Cong(Mul(yn, pInv) * p, yn)
  {
    hide Reduce;
    Reduced(p * pInv);
    Reduced(yn * pInv);
    CongTimes(p, Mul(yn, pInv), yn * pInv);
    assert (yn * pInv) * p == (p * pInv) * yn;
    DropUnit(p * pInv, yn);
  }

  lemma UnitPairs(p: int, pInv: int, yn: int, ynInv: int)
    ensures (yn * pInv) * (p * ynInv) == (p * pInv) * (yn * ynInv)
  {
    Cross(pInv, yn, p, ynInv);
  }

  // ---------- the three parts of the commitment

  lemma HPart(x: Halves)
    requires x.Valid()
    ensures Cong(Dot(x.NextA(), x.NextH()),
                 Dot(x.a1 + x.a2, x.h1 + x.h2)
                 + Square(x.p) * Dot(Scale(x.a1, x.ynInv), x.h2)
                 + Square(x.pInv) * Dot(Scale(x.a2, x.yn), x.h1))
  {
    hide Reduce;
    var p: Scalar, q: Scalar, yn: Scalar, yi: Scalar := x.p, x.pInv, x.yn, x.ynInv;
    var c: Scalar, d: Scalar := Mul(yn, q), Mul(p, yi);
    FoldedDot(x.a1, x.a2, p, c, x.h1, x.h2, q, d);
    UnitCoefficient(p, q);
    SquareCoefficient(p, yi);
    SquareCoefficient(q, yn);
    CrossCoefficient(p, q, yn, yi);
    DotAppend(x.a1, x.a2, x.h1, x.h2);
    var d11, d12, d21, d22 := Dot(x.a1, x.h1), Dot(x.a1, x.h2), Dot(x.a2, x.h1), Dot(x.a2, x.h2);
    DropUnit(p * q, d11);
    DropUnit(c * d, d22);
    var e12, e21 := Dot(Scale(x.a1, yi), x.h2), Dot(Scale(x.a2, yn), x.h1);
    assert Cong((p * d) * d12, Square(p) * e12) by {
      ScaledDot(x.a1, yi, x.h2, Ones(|x.a1|));
      ScaledTerm(p * d, Square(p), yi, d12, e12);
    }
    assert Cong((c * q) * d21, Square(q) * e21) by {
      ScaledDot(x.a2, yn, x.h1, Ones(|x.a2|));
      ScaledTerm(c * q, Square(q), yn, d21, e21);
    }
    CongAdd4((p * q) * d11, d11, (p * d) * d12, Square(p) * e12, (c * q) * d21, Square(q) * e21, (c * d) * d22, d22);
  }

  lemma ScaledTerm(c: int, s: int, k: int, d: int, e: int)
    requires Cong(c, s * k) && Cong(e, k * d)
    ensures Cong(c * d, s * e)
  {
    hide Reduce;
    CongTimes(d, c, s * k);
    assert (s * k) * d == s * (k * d);
    CongTimes(s, e, k * d);
  }

  lemma GPart(x: Halves)
    requires x.Valid()
    ensures Cong(Dot(x.NextB(), x.NextG()),
                 Dot(x.b1 + x.b2, x.g1 + x.g2)
                 + Square(x.p) * Dot(x.b2, x.g1)
                 + Square(x.pInv) * Dot(x.b1, x.g2))
  {
    hide Reduce;
    var p: Scalar, q: Scalar := x.p, x.pInv;
    FoldedDot(x.b1, x.b2, q, p, x.g1, x.g2, p, q);
    UnitCoefficient(p, q);
    SquareCoefficient(p, p);
    SquareCoefficient(q, q);
    DotAppend(x.b1, x.b2, x.g1, x.g2);
    var d11, d12, d21, d22 := Dot(x.b1, x.g1), Dot(x.b1, x.g2), Dot(x.b2, x.g1), Dot(x.b2, x.g2);
    DropUnit(q * p, d11);
    DropUnit(p * q, d22);
    CongTimes(d12, q * q, Square(q));
    CongTimes(d21, p * p, Square(p));
    CongAdd4((q * p) * d11, d11, (q * q) * d12, Square(q) * d12, (p * p) * d21, Square(p) * d21, (p * q) * d22, d22);
  }

  lemma WipOfHalf(u: seq<Scalar>, v: seq<Scalar>, w: seq<Scalar>)
    requires |u| == |v| <= |w|
    ensures Cong(Wip(u, v, w), WeightedDot(u, v, w))
  {
    hide Reduce;
    var n := |u|;
    assert u[..n] == u && v[..n] == v;
    WeightPrefix(u, v, w[..n], w);
    Reduced(WeightedDot(u, v, w[..n]));
  }

  lemma UpperWeights(y: Scalar, n: nat)
    ensures forall i | 0 <= i < n :: Cong(Weights(y, 2 * n)[n..][i], Weights(y, 2 * n)[i] * Power(y, n))
  {
    hide Reduce;
    forall i | 0 <= i < n ensures Cong(Weights(y, 2 * n)[n..][i], Weights(y, 2 * n)[i] * Power(y, n)) {
      PowerSum(y, i + 1, n);
    }
  }

  /** The weighted inner product of the whole vectors, by halves. */
  lemma WipByHalves(x: Halves, y: Scalar)
    requires x.Valid() && x.yn == Power(y, |x.a1|)
    ensures var w := Weights(y, 2 * |x.a1|);
            Cong(WeightedDot(x.a1 + x.a2, x.b1 + x.b2, w),
                 WeightedDot(x.a1, x.b1, w) + x.yn * WeightedDot(x.a2, x.b2, w))
  {
    hide Reduce;
    var n := |x.a1|;
    var w := Weights(y, 2 * n);
    WeightedDotAppend(x.a1, x.a2, x.b1, x.b2, w);
    UpperWeights(y, n);
    WeightScaled(x.a2, x.b2, w, x.yn, w[n..]);
    CongAdd(WeightedDot(x.a1, x.b1, w), WeightedDot(x.a1, x.b1, w),
            WeightedDot(x.a2, x.b2, w[n..]), x.yn * WeightedDot(x.a2, x.b2, w));
  }

  /** The two cross terms as the prover computes them. */
  lemma CrossTerms(x: Halves, w: seq<Scalar>)
    requires x.Valid() && |x.a1| <= |w|
    ensures Cong(Wip(x.a1, x.b2, w), WeightedDot(x.a1, x.b2, w))
    ensures Cong(Wip(Scale(x.a2, x.yn), x.b1, w), x.yn * WeightedDot(x.a2, x.b1, w))
  {
    hide Reduce;
    WipOfHalf(x.a1, x.b2, w);
    WipOfHalf(Scale(x.a2, x.yn), x.b1, w);
    ScaledDot(x.a2, x.yn, x.b1, w);
  }

  lemma WPart(x: Halves, y: Scalar)
    requires x.Valid() && x.yn == Power(y, |x.a1|)
    ensures var w := Weights(y, 2 * |x.a1|);
            Cong(WeightedDot(x.NextA(), x.NextB(), w),
                 WeightedDot(x.a1 + x.a2, x.b1 + x.b2, w)
                 + Square(x.p) * Wip(x.a1, x.b2, w)
                 + Square(x.pInv) * Wip(Scale(x.a2, x.yn), x.b1, w))
  {
    hide Reduce, Weights, Wip;
    var p: Scalar, q: Scalar, yn: Scalar := x.p, x.pInv, x.yn;
    var c: Scalar := Mul(yn, q);
    var w := Weights(y, 2 * |x.a1|);
    FoldedWip(x.a1, x.a2, p, c, x.b1, x.b2, q, p, w);
    WipByHalves(x, y);
    CrossTerms(x, w);
    var d11, d22 := WeightedDot(x.a1, x.b1, w), WeightedDot(x.a2, x.b2, w);
    var cl: Scalar, cr: Scalar := Wip(x.a1, x.b2, w), Wip(Scale(x.a2, yn), x.b1, w);
    WPartSum(p, q, yn, d11, WeightedDot(x.a1, x.b2, w), WeightedDot(x.a2, x.b1, w), d22, cl, cr);
    var cross := Square(p) * cl + Square(q) * cr;
    CongAdd(WeightedDot(x.a1 + x.a2, x.b1 + x.b2, w), d11 + yn * d22, cross, cross);
  }

  lemma WPartSum(p: Scalar, q: Scalar, yn: Scalar, d11: int, d12: int, d21: int, d22: int, cl: int, cr: int)
    requires Mul(p, q) == 1 && Cong(cl, d12) && Cong(cr, yn * d21)
    ensures var c: Scalar := Mul(yn, q);
            Cong((p * q) * d11 + (p * p) * d12 + (c * q) * d21 + (c * p) * d22,
                 d11 + yn * d22 + Square(p) * cl + Square(q) * cr)
  {
    hide Reduce;
    var c: Scalar := Mul(yn, q);
    UnitCoefficient(p, q);
    SquareCoefficient(p, p);
    SquareCoefficient(q, yn);
    MiddleCoefficient(p, q, yn);
    DropUnit(p * q, d11);
    CongMul(p * p, Square(p), d12, cl);
    ScaledTerm(c * q, Square(q), yn, d21, cr);
    CongTimes(d22, c * p, yn);
    CongAdd4((p * q) * d11, d11, (p * p) * d12, Square(p) * cl, (c * q) * d21, Square(q) * cr, (c * p) * d22, yn * d22);
  }

  // ---------- the whole round

  lemma CrossPoint(u: seq<Scalar>, h: seq<Point>, v: seq<Scalar>, g: seq<Point>, c: Scalar, ph: Point, d: Scalar, pg: Point)
    requires |u| == |h| && |v| == |g|
    ensures Cong(MultiExp(Zip(u, h) + Zip(v, g) + [(c, ph), (d, pg)]), Dot(u, h) + Dot(v, g) + c * ph + d * pg)
  {
    hide Reduce, Dot, Zip;
    var s, t := Zip(u, h), Zip(v, g);
    TotalAppend(s, t);
    TotalZip(u, h);
    TotalZip(v, g);
    TotalSnoc(s + t, c, ph);
    TotalSnoc(s + t + [(c, ph)], d, pg);
    assert s + t + [(c, ph)] + [(d, pg)] == s + t + [(c, ph), (d, pg)];
    Reduced(Total(s + t + [(c, ph), (d, pg)]));
  }

  lemma AlphaPart(alpha: Scalar, dL: Scalar, s: Scalar, dR: Scalar, t: Scalar, g: Point)
    ensures Cong(Add(alpha, Add(Mul(dL, s), Mul(dR, t))) * g, alpha * g + s * (dL * g) + t * (dR * g))
  {
    hide Reduce, Mul;
    SumOfProducts(dL, s, dR, t);
    var sum: Scalar := Add(Mul(dL, s), Mul(dR, t));
    CongAdd(alpha, alpha, sum, s * dL + t * dR);
    Reduced(alpha + sum);
    CongTimes(g, Add(alpha, sum), alpha + (s * dL + t * dR));
    AlphaExpand(alpha, s, dL, t, dR, g);
  }

  lemma AlphaExpand(alpha: int, s: int, dL: int, t: int, dR: int, g: int)
    ensures (alpha + (s * dL + t * dR)) * g == alpha * g + s * (dL * g) + t * (dR * g)
  {
    assert (alpha + (s * dL + t * dR)) * g == alpha * g + (s * dL) * g + (t * dR) * g;
    assert (s * dL) * g == s * (dL * g) && (t * dR) * g == t * (dR * g);
  }

  lemma WeightsOfHalf(y: Scalar, n: nat, u: seq<int>, v: seq<int>)
    requires |u| == |v| == n
    ensures WeightedDot(u, v, Weights(y, n)) == WeightedDot(u, v, Weights(y, 2 * n))
  {
    WeightPrefix(u, v, Weights(y, n), Weights(y, 2 * n));
  }

  lemma FoldedLengths(x: Halves)
    requires x.Valid()
    ensures |x.NextA()| == |x.NextB()| == |x.NextH()| == |x.NextG()| == |x.a1|
  {
  }

  /** A round changes the commitment by exactly the scaled L and R points. */
  lemma RoundKeepsCommitment(gens: Generators, y: Scalar, x: Halves, alpha: Scalar, dL: Scalar, dR: Scalar)
    requires x.Valid() && x.yn == Power(y, |x.a1|)
    requires |x.NextA()| == |x.NextB()| == |x.NextH()| == |x.NextG()|
    ensures var w := Weights(y, 2 * |x.a1|);
            Cong(Commitment(gens, y, x.NextH(), x.NextG(), x.NextA(), x.NextB(), x.NextAlpha(alpha, dL, dR)),
                 Commitment(gens, y, x.h1 + x.h2, x.g1 + x.g2, x.a1 + x.a2, x.b1 + x.b2, alpha)
                 + Square(x.p) * MultiExp(x.LTerms(gens, w, dL))
                 + Square(x.pInv) * MultiExp(x.RTerms(gens, w, dR)))
  {
    hide Reduce, Cong, Mul, Add, Power, Weights, Wip, Square, MultiExp, Dot, WeightedDot, Zip, Scale, x.NextA, x.NextB, x.NextH, x.NextG;
    var w := Weights(y, 2 * |x.a1|);
    FoldedLengths(x);
    HPart(x);
    GPart(x);
    WPart(x, y);
    AlphaPart(alpha, dL, Square(x.p), dR, Square(x.pInv), gens.g);
    WeightsOfHalf(y, |x.a1|, x.NextA(), x.NextB());
    var cl: Scalar, cr: Scalar := Wip(x.a1, x.b2, w), Wip(Scale(x.a2, x.yn), x.b1, w);
    CrossPoint(Scale(x.a1, x.ynInv), x.h2, x.b2, x.g1, cl, gens.h, dL, gens.g);
    CrossPoint(Scale(x.a2, x.yn), x.h1, x.b1, x.g2, cr, gens.h, dR, gens.g);
    RoundSum(Square(x.p), Square(x.pInv), gens.h,
             Dot(x.NextA(), x.NextH()), Dot(x.a1 + x.a2, x.h1 + x.h2), Dot(Scale(x.a1, x.ynInv), x.h2), Dot(Scale(x.a2, x.yn), x.h1),
             Dot(x.NextB(), x.NextG()), Dot(x.b1 + x.b2, x.g1 + x.g2), Dot(x.b2, x.g1), Dot(x.b1, x.g2),
             WeightedDot(x.NextA(), x.NextB(), w), WeightedDot(x.a1 + x.a2, x.b1 + x.b2, w), cl, cr,
             x.NextAlpha(alpha, dL, dR) * gens.g, alpha * gens.g, dL * gens.g, dR * gens.g,
             MultiExp(x.LTerms(gens, w, dL)), MultiExp(x.RTerms(gens, w, dR)));
  }

  lemma RoundSum(s: int, t: int, h: int, h': int, h0: int, hl: int, hr: int, g': int, g0: int, gl: int, gr: int,
                 w': int, w0: int, wl: int, wr: int, a': int, a0: int, al: int, ar: int, l: int, r: int)
    requires Cong(h', h0 + s * hl + t * hr)
    requires Cong(g', g0 + s * gl + t * gr)
    requires Cong(w', w0 + s * wl + t * wr)
    requires Cong(a', a0 + s * al + t * ar)
    requires Cong(l, hl + gl + wl * h + al) && Cong(r, hr + gr + wr * h + ar)
    ensures Cong(h' + g' + w' * h + a', h0 + g0 + w0 * h + a0 + s * l + t * r)
  {
    hide Reduce;
    CongTimes(h, w', w0 + s * wl + t * wr);
    CongAdd4(h', h0 + s * hl + t * hr, g', g0 + s * gl + t * gr, w' * h, (w0 + s * wl + t * wr) * h,
             a', a0 + s * al + t * ar);
    CongTimes(s, l, hl + gl + wl * h + al);
    CongTimes(t, r, hr + gr + wr * h + ar);
    var before := h0 + g0 + w0 * h + a0;
    CongAdd(s * l, s * (hl + gl + wl * h + al), t * r, t * (hr + gr + wr * h + ar));
    CongAdd(before, before, s * l + t * r, s * (hl + gl + wl * h + al) + t * (hr + gr + wr * h + ar));
    RoundExpand(s, hl, gl, wl, h, al);
    RoundExpand(t, hr, gr, wr, h, ar);
    assert (w0 + s * wl + t * wr) * h == w0 * h + (s * wl) * h + (t * wr) * h;
  }

  lemma RoundExpand(s: int, x: int, y: int, w: int, h: int, a: int)
    ensures s * (x + y + w * h + a) == s * x + s * y + (s * w) * h + s * a
  {
    assert s * (w * h) == (s * w) * h;
  }
}
