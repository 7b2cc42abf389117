/** The last step of the argument, on vectors of length one: the answers of the
    prover open the commitment. */
module WipOpening {
  import opened Scalars
  import opened Sums
  import opened WipArgument

  /** The folded witness with the nonces of the last step. */
  datatype Opening = Opening(a: Scalar, b: Scalar, alpha: Scalar, h: Point, g: Point,
                             r: Scalar, s: Scalar, delta: Scalar, n: Scalar) {
    function ATerms(gens: Generators, y: Scalar): Terms {
      [(r, h), (s, g), (Add(Mul(Mul(r, y), b), Mul(Mul(s, y), a)), gens.h), (delta, gens.g)]
    }

    function BTerms(gens: Generators, y: Scalar): Terms {
      [(Mul(Mul(r, y), s), gens.h), (n, gens.g)]
    }

    function RRev(e: Scalar): Scalar {
      Add(r, Mul(a, e))
    }

    function SRev(e: Scalar): Scalar {
      Add(s, Mul(b, e))
    }

    function DeltaRev(e: Scalar): Scalar {
      Add(Add(n, Mul(delta, e)), Mul(alpha, Square(e)))
    }

    /** The commitment to the folded witness. */
    function Committed(gens: Generators, y: Scalar): int {
      a * h + b * g + (a * b * y) * gens.h + alpha * gens.g
    }
  }

  lemma AnswerCong(r: Scalar, a: Scalar, e: Scalar)
    ensures Cong(Add(r, Mul(a, e)), r + a * e)
  {
    hide Reduce;
    Reduced(a * e);
    CongAdd(r, r, Mul(a, e), a * e);
    Reduced(r + Mul(a, e));
  }

  lemma GeneratorTerm(r: Scalar, a: Scalar, e: Scalar, h: Point)
    ensures Cong((Add(r, Mul(a, e)) * e) * h - e * (r * h), (e * e) * (a * h))
  {
    hide Reduce;
    AnswerCong(r, a, e);
    var x: Scalar := Add(r, Mul(a, e));
    CongTimes(e, x, r + a * e);
    CongTimes(h, x * e, (r + a * e) * e);
    CongSub((x * e) * h, ((r + a * e) * e) * h, e * (r * h), e * (r * h));
    GeneratorExpand(r, a, e, h);
  }

  lemma GeneratorExpand(r: int, a: int, e: int, h: int)
    ensures ((r + a * e) * e) * h == e * (r * h) + (e * e) * (a * h)
  {
    assert (r + a * e) * e == r * e + (a * e) * e;
    assert (r * e + (a * e) * e) * h == (r * e) * h + ((a * e) * e) * h;
    assert (r * e) * h == e * (r * h);
    assert (a * e) * e == a * (e * e);
    Cross(a, e * e, h, 1);
    assert (a * (e * e)) * h == (e * e) * (a * h);
  }

  lemma BlindingTerm(n: Scalar, delta: Scalar, alpha: Scalar, e: Scalar, g: Point)
    ensures Cong(Add(Add(n, Mul(delta, e)), Mul(alpha, Square(e))) * g - e * (delta * g) - n * g, (e * e) * (alpha * g))
  {
    hide Reduce;
    var m: Scalar := Add(n, Mul(delta, e));
    var x: Scalar := Add(m, Mul(alpha, Square(e)));
    AnswerCong(n, delta, e);
    AnswerCong(m, alpha, Square(e));
    Reduced(e * e);
    CongTimes(alpha, Square(e), e * e);
    CongAdd(m, n + delta * e, alpha * Square(e), alpha * (e * e));
    var raw := n + delta * e + alpha * (e * e);
    CongTimes(g, x, raw);
    var rest := e * (delta * g) + n * g;
    CongSub(x * g, raw * g, rest, rest);
    BlindingExpand(n, delta, alpha, e, g);
  }

  lemma BlindingExpand(n: int, delta: int, alpha: int, e: int, g: int)
    ensures (n + delta * e + alpha * (e * e)) * g == n * g + e * (delta * g) + (e * e) * (alpha * g)
  {
    assert (n + delta * e + alpha * (e * e)) * g == n * g + (delta * e) * g + (alpha * (e * e)) * g;
    assert (delta * e) * g == e * (delta * g);
    assert (alpha * (e * e)) * g == (e * e) * (alpha * g);
  }

  lemma CrossProduct(r: int, b: int, e: int, y: int)
    ensures (r * (b * e)) * y == e * (r * y * b)
  {
    assert r * (b * e) == e * (r * b);
    assert (r * b) * y == r * y * b;
  }

  lemma ProductExpand(r: int, a: int, s: int, b: int, y: int, e: int)
    ensures (r + a * e) * y * (s + b * e) == r * y * s + e * (r * y * b + s * y * a) + (e * e) * (a * b * y)
  {
    Foil(r, a * e, s, b * e);
    assert (r + a * e) * y * (s + b * e) == ((r + a * e) * (s + b * e)) * y;
    Distribute4(r * s, r * (b * e), (a * e) * s, (a * e) * (b * e), y);
    assert (r * s) * y == r * y * s;
    CrossProduct(r, b, e, y);
    CrossProduct(s, a, e, y);
    assert (a * e) * s == s * (a * e);
    Cross(a, e, b, e);
    assert ((a * b) * (e * e)) * y == (e * e) * (a * b * y);
  }

  lemma WeightedAnswers(x: Opening, y: Scalar, e: Scalar)
    ensures var w: Scalar := Add(Mul(Mul(x.r, y), x.b), Mul(Mul(x.s, y), x.a));
            Cong(x.RRev(e) * y * x.SRev(e), Mul(Mul(x.r, y), x.s) + e * w + (e * e) * (x.a * x.b * y))
  {
    hide Reduce;
    var r: Scalar, s: Scalar, a: Scalar, b: Scalar := x.r, x.s, x.a, x.b;
    AnswerCong(r, a, e);
    AnswerCong(s, b, e);
    CongTimes(y, x.RRev(e), r + a * e);
    CongMul(x.RRev(e) * y, (r + a * e) * y, x.SRev(e), s + b * e);
    ProductExpand(r, a, s, b, y, e);
    ReducedProduct(r, y, s);
    ReducedProduct(r, y, b);
    ReducedProduct(s, y, a);
    var u: Scalar, v: Scalar := Mul(Mul(r, y), b), Mul(Mul(s, y), a);
    Reduced(u + v);
    CongAdd(u, r * y * b, v, s * y * a);
    CongTimes(e, Add(u, v), r * y * b + s * y * a);
    CongAdd(Mul(Mul(r, y), s), r * y * s, e * Add(u, v), e * (r * y * b + s * y * a));
    var ee := (e * e) * (a * b * y);
    CongAdd(Mul(Mul(r, y), s) + e * Add(u, v), r * y * s + e * (r * y * b + s * y * a), ee, ee);
  }

  lemma ReducedProduct(r: Scalar, y: Scalar, s: Scalar)
    ensures Cong(Mul(Mul(r, y), s), r * y * s)
  {
    hide Reduce;
    Reduced(r * y);
    CongTimes(s, Mul(r, y), r * y);
    Reduced(Mul(r, y) * s);
  }

  lemma PointA(x: Opening, gens: Generators, y: Scalar)
    ensures var w: Scalar := Add(Mul(Mul(x.r, y), x.b), Mul(Mul(x.s, y), x.a));
            Cong(MultiExp(x.ATerms(gens, y)), x.r * x.h + x.s * x.g + w * gens.h + x.delta * gens.g)
  {
    hide Reduce, Add, Mul;
    var w: Scalar := Add(Mul(Mul(x.r, y), x.b), Mul(Mul(x.s, y), x.a));
    var t1 := [(x.r, x.h)];
    var t2 := t1 + [(x.s, x.g)];
    var t3 := t2 + [(w, gens.h)];
    assert [] + t1 == t1;
    TotalSnoc([], x.r, x.h);
    TotalSnoc(t1, x.s, x.g);
    TotalSnoc(t2, w, gens.h);
    TotalSnoc(t3, x.delta, gens.g);
    assert x.ATerms(gens, y) == t3 + [(x.delta, gens.g)];
    Reduced(Total(x.ATerms(gens, y)));
  }

  lemma PointB(x: Opening, gens: Generators, y: Scalar)
    ensures Cong(MultiExp(x.BTerms(gens, y)), Mul(Mul(x.r, y), x.s) * gens.h + x.n * gens.g)
  {
    hide Reduce, Mul;
    var m: Scalar := Mul(Mul(x.r, y), x.s);
    var t1 := [(m, gens.h)];
    assert [] + t1 == t1;
    TotalSnoc([], m, gens.h);
    TotalSnoc(t1, x.n, gens.g);
    assert x.BTerms(gens, y) == t1 + [(x.n, gens.g)];
    Reduced(Total(x.BTerms(gens, y)));
  }

  /** Checked against any commitment `p`, the honest answers leave exactly the
      difference between `p` and the commitment of the witness. */
  lemma AnswersOpen(x: Opening, gens: Generators, y: Scalar, e: Scalar, p: int, proof: WipProof)
    requires proof.a == MultiExp(x.ATerms(gens, y)) && proof.b == MultiExp(x.BTerms(gens, y))
    requires proof.rRev == x.RRev(e) && proof.sRev == x.SRev(e) && proof.deltaRev == x.DeltaRev(e)
    ensures Cong(FinalSum(gens, y, e, p, x.h, x.g, proof), (e * e) * (x.Committed(gens, y) - p))
  {
    var w: Scalar := Add(Mul(Mul(x.r, y), x.b), Mul(Mul(x.s, y), x.a));
    var m: Scalar := Mul(Mul(x.r, y), x.s);
    GeneratorTerm(x.r, x.a, e, x.h);
    GeneratorTerm(x.s, x.b, e, x.g);
    BlindingTerm(x.n, x.delta, x.alpha, e, gens.g);
    WeightedAnswers(x, y, e);
    PointA(x, gens, y);
    PointB(x, gens, y);
    hide Reduce, Cong, Add, Mul, Square, MultiExp;
    var a: Scalar, b: Scalar := x.a, x.b;
    OpeningSum(e, p, proof.rRev * e, x.h, x.r * x.h, a * x.h, proof.sRev * e, x.g, x.s * x.g, b * x.g,
               proof.rRev * y * proof.sRev, gens.h, m, w, a * b * y,
               proof.deltaRev * gens.g, x.delta * gens.g, x.n * gens.g, x.alpha * gens.g, proof.a, proof.b);
  }

  lemma OpeningSum(e: int, p: int, re: int, h: int, rh: int, ah: int, se: int, g: int, sg: int, bg: int,
                   ry: int, hh: int, m: int, w: int, aby: int,
                   dg: int, deltaG: int, ng: int, alphaG: int, pa: int, pb: int)
    requires Cong(re * h - e * rh, (e * e) * ah) && Cong(se * g - e * sg, (e * e) * bg)
    requires Cong(ry, m + e * w + (e * e) * aby)
    requires Cong(dg - e * deltaG - ng, (e * e) * alphaG)
    requires Cong(pa, rh + sg + w * hh + deltaG) && Cong(pb, m * hh + ng)
    ensures Cong(-(e * e) * p + re * h + se * g - e * pa + ry * hh + dg - pb, (e * e) * (ah + bg + aby * hh + alphaG - p))
  {
    hide Reduce;
    var q := e * e;
    CongTimes(hh, ry, m + e * w + q * aby);
    CongTimes(e, pa, rh + sg + w * hh + deltaG);
    assert (m + e * w + q * aby) * hh == m * hh + (e * w) * hh + (q * aby) * hh;
    assert e * (rh + sg + w * hh + deltaG) == e * rh + e * sg + (e * w) * hh + e * deltaG by {
      assert e * (w * hh) == (e * w) * hh;
    }
    CongAdd4(re * h - e * rh, q * ah, se * g - e * sg, q * bg,
             ry * hh, m * hh + (e * w) * hh + (q * aby) * hh, dg - e * deltaG - ng, q * alphaG);
    CongAdd(e * pa, e * rh + e * sg + (e * w) * hh + e * deltaG, pb, m * hh + ng);
    var x := re * h - e * rh + (se * g - e * sg) + ry * hh + (dg - e * deltaG - ng);
    var x' := q * ah + q * bg + (m * hh + (e * w) * hh + (q * aby) * hh) + q * alphaG;
    var z, z' := e * pa + pb, e * rh + e * sg + (e * w) * hh + e * deltaG + (m * hh + ng);
    CongSub(x, x', z, z');
    var c := e * rh + e * sg + e * deltaG + ng - q * p;
    CongAdd(x - z, x' - z', c, c);
    assert q * (ah + bg + aby * hh + alphaG - p) == q * ah + q * bg + q * (aby * hh) + q * alphaG - q * p;
    assert q * (aby * hh) == (q * aby) * hh;
    assert -q * p == -(q * p);
  }
}
