/** The range statement is a weighted inner product statement: the point the
    verifier computes commits to the shifted bits of the value. */
module RangeReduction {
  import opened Scalars
  import opened Sums
  import opened VecOps
  import opened WipArgument
  import opened WipOpening
  import opened RangeStatement
  import opened WipProver

  // ---------- inner products of shifted vectors

  lemma {:induction false} DotOfSum(c: seq<int>, a: seq<int>, b: seq<int>, v: seq<int>)
    requires |c| == |a| == |b| == |v|
    requires forall i | 0 <= i < |c| :: Cong(c[i], a[i] + b[i])
    ensures Cong(Dot(c, v), Dot(a, v) + Dot(b, v))
  {
    hide Reduce, Dot;
    if |c| == 0 {
      assert c == [] && a == [] && b == [] && v == [];
      EmptyDot();
    } else {
      var n := |c| - 1;
      DotOfSum(c[..n], a[..n], b[..n], v[..n]);
      DotStep(c, v);
      DotStep(a, v);
      DotStep(b, v);
      CongTimes(v[n], c[n], a[n] + b[n]);
      assert (a[n] + b[n]) * v[n] == a[n] * v[n] + b[n] * v[n];
      CongAdd(Dot(c[..n], v[..n]), Dot(a[..n], v[..n]) + Dot(b[..n], v[..n]), c[n] * v[n], a[n] * v[n] + b[n] * v[n]);
    }
  }

  lemma SubCong(a: Scalar, b: Scalar)
    ensures Cong(Sub(a, b), a - b)
  {
    hide Reduce;
    Reduced(a - b);
  }

  lemma AddCong(a: Scalar, b: Scalar)
    ensures Cong(Add(a, b), a + b)
  {
    hide Reduce;
    Reduced(a + b);
  }

  /** The shifted bits, as paired with the `h` generators. */
  function ShiftedL(bits: seq<Scalar>, z: Scalar): (s: seq<Scalar>)
    ensures |s| == |bits|
  {
    SubEach(bits, z)
  }

  function ShiftedR(bits: seq<Scalar>, y: Scalar, z: Scalar): (s: seq<Scalar>)
    ensures |s| == |bits|
  {
    AddAll(SubEach(bits, 1), AddEach(Descending(y, |bits|), z))
  }

  lemma LeftPart(bits: seq<Scalar>, z: Scalar, h: seq<Point>)
    requires |bits| == |h|
    ensures Cong(Dot(bits, h) + Dot(Repeat(Neg(z), |bits|), h), Dot(ShiftedL(bits, z), h))
  {
    hide Reduce, Dot;
    var s, r := ShiftedL(bits, z), Repeat(Neg(z), |bits|);
    forall i | 0 <= i < |bits| ensures Cong(s[i], (bits[i] as int) + r[i]) {
      SubCong(bits[i], z);
      Reduced(0 - z);
      CongAdd(bits[i], bits[i], Neg(z), 0 - z);
    }
    DotOfSum(s, bits, r, h);
  }

  lemma RightPart(bits: seq<Scalar>, y: Scalar, z: Scalar, g: seq<Point>)
    requires |bits| == |g|
    ensures Cong(Dot(SubEach(bits, 1), g) + Dot(AddAll(Descending(y, |bits|), Repeat(z, |bits|)), g), Dot(ShiftedR(bits, y, z), g))
  {
    hide Reduce, Dot, Descending, Sub;
    var s, a, d := ShiftedR(bits, y, z), SubEach(bits, 1), AddAll(Descending(y, |bits|), Repeat(z, |bits|));
    assert d == AddEach(Descending(y, |bits|), z);
    forall i | 0 <= i < |bits| ensures Cong(s[i], (a[i] as int) + d[i]) {
      AddCong(a[i], d[i]);
    }
    DotOfSum(s, a, d, g);
  }

  // ---------- the weighted inner product of the shifted bits

  lemma ShiftedElements(b: Scalar, z: Scalar, t: Scalar, u: Scalar)
    ensures Cong(Sub(b, z), b - z)
    ensures Cong(Add(Sub(b, 1), Add(Mul(t, u), z)), b - 1 + t * u + z)
  {
    hide Reduce;
    SubCong(b, z);
    SubCong(b, 1);
    Reduced(t * u);
    AddCong(Mul(t, u), z);
    CongAdd(Mul(t, u), t * u, z, z);
    AddCong(Sub(b, 1), Add(Mul(t, u), z));
    CongAdd(Sub(b, 1), b - 1, Add(Mul(t, u), z), t * u + z);
  }

  lemma BitExpand(b: int, z: int, t: int, u: int, w: int)
    requires b == 0 || b == 1
    ensures (b - z) * (b - 1 + t * u + z) * w == (z - z * z) * w + ((b - z) * t) * (u * w)
  {
    assert (b - z) * (b - 1 + z) == z - z * z;
    assert (b - z) * (t * u) == ((b - z) * t) * u;
    assert (b - z) * (b - 1 + t * u + z) == (z - z * z) + ((b - z) * t) * u;
    assert ((z - z * z) + ((b - z) * t) * u) * w == (z - z * z) * w + (((b - z) * t) * u) * w;
    assert (((b - z) * t) * u) * w == ((b - z) * t) * (u * w);
  }

  /** The weighted inner product of the shifted bits, from the sums `s` of the
      weights, `d` of the bits times powers of two and `p` of those powers. */
  function WipForm(z: int, top: int, s: int, d: int, p: int): int {
    (z - z * z) * s + top * (d - z * p)
  }

  /** One summand of the weighted inner product; `top` stands for y^(n+1). */
  lemma ShiftedTerm(b: Scalar, z: Scalar, t: Scalar, u: Scalar, w: Scalar, top: Scalar)
    requires b == 0 || b == 1
    requires Cong(u * w, top)
    ensures Cong(Sub(b, z) * Add(Sub(b, 1), Add(Mul(t, u), z)) * w, WipForm(z, top, w, b * t, t))
  {
    hide Reduce;
    var l: Scalar, r: Scalar := Sub(b, z), Add(Sub(b, 1), Add(Mul(t, u), z));
    ShiftedElements(b, z, t, u);
    CongMul(l, b - z, r, b - 1 + t * u + z);
    CongTimes(w, l * r, (b - z) * (b - 1 + t * u + z));
    BitExpand(b, z, t, u, w);
    CongTimes((b - z) * t, u * w, top);
    CongAdd((z - z * z) * w, (z - z * z) * w, ((b - z) * t) * (u * w), ((b - z) * t) * top);
    assert ((b - z) * t) * top == top * (b * t - z * t) by {
      assert (b - z) * t == b * t - z * t;
    }
  }

  ghost predicate Binary(bits: seq<Scalar>) {
    forall i | 0 <= i < |bits| :: bits[i] == 0 || bits[i] == 1
  }

  lemma {:induction false} ShiftedWip(bits: seq<Scalar>, y: Scalar, z: Scalar, k: nat)
    requires Binary(bits) && k <= |bits|
    ensures var n := |bits|;
            Cong(WeightedDot(ShiftedL(bits, z)[..k], ShiftedR(bits, y, z)[..k], Weights(y, n)),
                 WipForm(z, Power(y, n + 1), Sum(Weights(y, n)[..k]), Dot(bits[..k], Powers(n)[..k]), Sum(Powers(n)[..k])))
  {
    hide Reduce, Dot, ShiftedL, ShiftedR, Weights, Powers, Power, Sub, Add, Mul;
    var n := |bits|;
    if k == 0 {
      assert bits[..0] == [] && Powers(n)[..0] == [];
      EmptyDot();
    } else {
      var i := k - 1;
      ShiftedWip(bits, y, z, i);
      hide WeightedDot, Sum, WipForm, Cong;
      ShiftedPrefixes(bits, y, z, i);
      ShiftedElement(bits, y, z, i);
      PowerSum(y, n - i, k);
      ShiftedTerm(bits[i], z, Power(Two(), i), Power(y, n - i), Power(y, k), Power(y, n + 1));
      ShiftedStep(z, Power(y, n + 1), Sum(Weights(y, n)[..i]), Power(y, k), Dot(bits[..i], Powers(n)[..i]),
                  bits[i] * Power(Two(), i), Sum(Powers(n)[..i]), Power(Two(), i),
                  WeightedDot(ShiftedL(bits, z)[..i], ShiftedR(bits, y, z)[..i], Weights(y, n)),
                  (ShiftedL(bits, z)[i] as int) * ShiftedR(bits, y, z)[i] * Power(y, k));
    }
  }

  lemma ShiftedElement(bits: seq<Scalar>, y: Scalar, z: Scalar, i: nat)
    requires i < |bits|
    ensures ShiftedL(bits, z)[i] == Sub(bits[i], z)
    ensures ShiftedR(bits, y, z)[i] == Add(Sub(bits[i], 1), Add(Mul(Power(Two(), i), Power(y, |bits| - i)), z))
  {
    hide Reduce, Sub, Add, Mul, Power;
  }

  lemma WeightedStep(u: seq<int>, v: seq<int>, w: seq<int>, i: nat)
    requires i < |u| == |v| <= |w|
    ensures WeightedDot(u[..i + 1], v[..i + 1], w) == WeightedDot(u[..i], v[..i], w) + u[i] * v[i] * w[i]
  {
    assert u[..i + 1][..i] == u[..i] && v[..i + 1][..i] == v[..i];
  }

  lemma SumStep(u: seq<int>, i: nat)
    requires i < |u|
    ensures Sum(u[..i + 1]) == Sum(u[..i]) + u[i]
  {
    assert u[..i + 1][..i] == u[..i];
  }

  /** Prefixes of length `i + 1` of everything summed above. */
  lemma ShiftedPrefixes(bits: seq<Scalar>, y: Scalar, z: Scalar, i: nat)
    requires i < |bits|
    ensures var n, k := |bits|, i + 1;
            && WeightedDot(ShiftedL(bits, z)[..k], ShiftedR(bits, y, z)[..k], Weights(y, n))
               == WeightedDot(ShiftedL(bits, z)[..i], ShiftedR(bits, y, z)[..i], Weights(y, n))
                  + (ShiftedL(bits, z)[i] as int) * ShiftedR(bits, y, z)[i] * Power(y, k)
            && Sum(Weights(y, n)[..k]) == Sum(Weights(y, n)[..i]) + Power(y, k)
            && Sum(Powers(n)[..k]) == Sum(Powers(n)[..i]) + Power(Two(), i)
            && Dot(bits[..k], Powers(n)[..k]) == Dot(bits[..i], Powers(n)[..i]) + bits[i] * Power(Two(), i)
  {
    hide Reduce, Dot, ShiftedL, ShiftedR, WeightedDot, Sum, Power;
    var n, k := |bits|, i + 1;
    var l, r, w, p := ShiftedL(bits, z), ShiftedR(bits, y, z), Weights(y, n), Powers(n);
    WeightedStep(l, r, w, i);
    SumStep(w, i);
    SumStep(p, i);
    assert bits[..k][..i] == bits[..i] && p[..k][..i] == p[..i];
    DotStep(bits[..k], p[..k]);
  }

  lemma ShiftedStep(z: int, top: int, s: int, w: int, v: int, bt: int, t: int, p: int, before: int, term: int)
    requires Cong(before, WipForm(z, top, s, v, t)) && Cong(term, WipForm(z, top, w, bt, p))
    ensures Cong(before + term, WipForm(z, top, s + w, v + bt, t + p))
  {
    hide Reduce;
    CongAdd(before, WipForm(z, top, s, v, t), term, WipForm(z, top, w, bt, p));
    assert (z - z * z) * (s + w) == (z - z * z) * s + (z - z * z) * w;
    assert z * (t + p) == z * t + z * p;
    assert top * (v + bt - z * (t + p)) == top * (v - z * t) + top * (bt - z * p);
  }

  // ---------- the value behind the bits

  lemma {:induction false} PowerOfTwoCong(i: nat)
    ensures Cong(Power(Two(), i), Pow2(i))
  {
    hide Reduce;
    if i > 0 {
      PowerOfTwoCong(i - 1);
      Reduced(2);
      CongMul(Power(Two(), i - 1), Pow2(i - 1), Two(), 2);
      Reduced(Power(Two(), i - 1) * Two());
    }
  }

  lemma {:induction false} DotCong(u: seq<int>, v: seq<int>, v': seq<int>)
    requires |u| == |v| == |v'|
    requires forall i | 0 <= i < |u| :: Cong(v[i], v'[i])
    ensures Cong(Dot(u, v), Dot(u, v'))
  {
    hide Reduce, Dot;
    if |u| == 0 {
      assert v == v';
    } else {
      var n := |u| - 1;
      DotCong(u[..n], v[..n], v'[..n]);
      DotStep(u, v);
      DotStep(u, v');
      CongTimes(u[n], v[n], v'[n]);
      CongAdd(Dot(u[..n], v[..n]), Dot(u[..n], v'[..n]), u[n] * v[n], u[n] * v'[n]);
    }
  }

  lemma BitsCommitValue(value: nat, bits: seq<Scalar>)
    requires value < Pow2(|bits|)
    requires forall i | 0 <= i < |bits| :: bits[i] == Bit(value, i)
    ensures Binary(bits)
    ensures Cong(Dot(bits, Powers(|bits|)), value)
  {
    assert Binary(bits);
    hide Reduce, Dot, Pow2, Bit;
    var n := |bits|;
    var exact := seq(n, i requires 0 <= i < n => Pow2(i));
    forall i | 0 <= i < n ensures Cong(Powers(n)[i], exact[i]) {
      PowerOfTwoCong(i);
    }
    DotCong(bits, Powers(n), exact);
    BitsSumToValue(value, n, bits, exact);
  }

  lemma LastTermCong(y: Scalar, z: Scalar, n: nat)
    ensures Cong(LastTerm(y, z, n),
                 WipForm(z, Power(y, n + 1), Sum(Weights(y, n)), 0, Sum(Powers(n))))
  {
    hide Reduce, Weights, Powers, Power, Sum;
    var s, p := Sum(Weights(y, n)), Sum(Powers(n));
    LastTermValue(Reduce(s), s, Reduce(p), p, Power(y, n + 1), z);
    assert Power(y, n + 1) * (0 - z * p) == 0 - Power(y, n + 1) * (z * p);
  }

  lemma LastTermValue(ySum: Scalar, s: int, pSum: Scalar, p: int, top: Scalar, z: Scalar)
    requires ySum == Reduce(s) && pSum == Reduce(p)
    ensures Cong(Sub(Sub(Mul(ySum, z), Mul(Mul(pSum, top), z)), Mul(ySum, Square(z))), (z - z * z) * s - top * (z * p))
  {
    var a: Scalar, b: Scalar, c: Scalar := Mul(ySum, z), Mul(Mul(pSum, top), z), Mul(ySum, Square(z));
    assert Cong(a, s * z) by { hide Reduce; Reduced(s); Reduced(ySum * z); CongTimes(z, ySum, s); }
    assert Cong(b, p * top * z) by { hide Reduce; Reduced(p); ReducedProduct(pSum, top, z); CongTimes(top, pSum, p); CongTimes(z, pSum * top, p * top); }
    assert Cong(c, s * (z * z)) by { hide Reduce; Reduced(s); Reduced(z * z); CongMul(ySum, s, Square(z), z * z); Reduced(ySum * Square(z)); }
    hide Reduce, Mul, Square;
    SubCong(a, b);
    CongSub(a, s * z, b, p * top * z);
    SubCong(Sub(a, b), c);
    CongSub(Sub(a, b), s * z - p * top * z, c, s * (z * z));
    assert (z - z * z) * s == s * z - s * (z * z);
    assert p * top * z == top * (z * p);
  }

  // ---------- the reduction

  lemma CommitCong(gens: Generators, v: Scalar, r: Scalar)
    ensures Cong(Commit(gens, v, r), v * gens.h + r * gens.g)
  {
    hide Reduce;
    Reduced(gens.h * v);
    Reduced(gens.g * r);
    CongAdd(Mul(gens.h, v), v * gens.h, Mul(gens.g, r), r * gens.g);
    Reduced(Mul(gens.h, v) + Mul(gens.g, r));
  }

  /** The first point of the proof commits to the bits. */
  function BitCommitment(gens: Generators, bits: seq<Scalar>, alpha: Scalar): int
    requires |bits| == |gens.hBold| == |gens.gBold|
  {
    Dot(bits, gens.hBold) + Dot(SubEach(bits, 1), gens.gBold) + alpha * gens.g
  }

  lemma ShiftedWipWhole(bits: seq<Scalar>, y: Scalar, z: Scalar)
    requires Binary(bits)
    ensures var n := |bits|;
            Cong(WeightedDot(ShiftedL(bits, z), ShiftedR(bits, y, z), Weights(y, n)),
                 WipForm(z, Power(y, n + 1), Sum(Weights(y, n)), Dot(bits, Powers(n)), Sum(Powers(n))))
  {
    hide Reduce, Cong, Dot, WeightedDot, ShiftedL, ShiftedR, Weights, Powers, Power, Sum;
    var n := |bits|;
    ShiftedWip(bits, y, z, n);
    var l, r, w, p := ShiftedL(bits, z), ShiftedR(bits, y, z), Weights(y, n), Powers(n);
    assert l[..n] == l && r[..n] == r && w[..n] == w && p[..n] == p && bits[..n] == bits;
  }

  lemma WipOfBits(value: nat, bits: seq<Scalar>, y: Scalar, z: Scalar)
    requires Binary(bits) && Cong(Dot(bits, Powers(|bits|)), value)
    ensures Cong(WeightedDot(ShiftedL(bits, z), ShiftedR(bits, y, z), Weights(y, |bits|)),
                 Power(y, |bits| + 1) * value + LastTerm(y, z, |bits|))
  {
    hide Reduce, Cong, Dot, WeightedDot, ShiftedL, ShiftedR, Weights, Powers, Power, Sum, LastTerm, Binary, WipForm;
    var n := |bits|;
    ShiftedWipWhole(bits, y, z);
    LastTermCong(y, z, n);
    WipValue(z, Power(y, n + 1), Sum(Weights(y, n)), Dot(bits, Powers(n)), Sum(Powers(n)), value, LastTerm(y, z, n),
             WeightedDot(ShiftedL(bits, z), ShiftedR(bits, y, z), Weights(y, n)));
  }

  lemma WipValue(z: int, top: int, s: int, d: int, p: int, value: int, last: int, w: int)
    requires Cong(w, WipForm(z, top, s, d, p)) && Cong(d, value)
    requires Cong(last, WipForm(z, top, s, 0, p))
    ensures Cong(w, top * value + last)
  {
    hide Reduce;
    CongTimes(top, d, value);
    CongAdd(top * d, top * value, WipForm(z, top, s, 0, p), last);
    assert top * (d - z * p) == top * d + top * (0 - z * p);
  }

  /** The point computed from the commitment is the commitment of the shifted
      bits, blinded by alpha + r * y^(n+1). */
  lemma StatementIsWip(gens: Generators, value: nat, blinding: Scalar, bits: seq<Scalar>, alpha: Scalar, y: Scalar, z: Scalar, a: Point)
    requires |bits| == |gens.hBold| == |gens.gBold| && value < Pow2(|bits|)
    requires forall i | 0 <= i < |bits| :: bits[i] == Bit(value, i)
    requires Cong(a, BitCommitment(gens, bits, alpha))
    ensures Cong(AHatSum(gens, Commit(gens, Reduce(value), blinding), a, y, z),
                 WitnessCommitment(gens, y, ShiftedL(bits, z), ShiftedR(bits, y, z),
                                   Add(alpha, Mul(blinding, Power(y, |bits| + 1)))))
  {
    hide Reduce, Cong, Dot, WeightedDot, ShiftedL, ShiftedR, SubEach, AddAll, Weights, Power, LastTerm, Commit, Pow2, Bit, Descending, Repeat, Mul, Add, Neg;
    var n := |bits|;
    var top: Scalar, v: Scalar := Power(y, n + 1), Reduce(value);
    BitsCommitValue(value, bits);
    WipOfBits(value, bits, y, z);
    LeftPart(bits, z, gens.hBold);
    RightPart(bits, y, z, gens.gBold);
    CommitCong(gens, v, blinding);
    AnswerCong(alpha, blinding, top);
    Reduced(value);
    StatementSum(gens.g, gens.h, value, v, blinding, top, alpha, Add(alpha, Mul(blinding, top)), LastTerm(y, z, n),
                 Dot(bits, gens.hBold), Dot(Repeat(Neg(z), n), gens.hBold), Dot(ShiftedL(bits, z), gens.hBold),
                 Dot(SubEach(bits, 1), gens.gBold), Dot(AddAll(Descending(y, n), Repeat(z, n)), gens.gBold),
                 Dot(ShiftedR(bits, y, z), gens.gBold), a, Commit(gens, v, blinding),
                 WeightedDot(ShiftedL(bits, z), ShiftedR(bits, y, z), Weights(y, n)));
  }

  lemma StatementSum(g: int, h: int, value: int, v: int, r: int, top: int, alpha: int, alpha': int, last: int,
                     l0: int, l1: int, l: int, r0: int, r1: int, rr: int, a: int, c: int, w: int)
    requires Cong(l0 + l1, l) && Cong(r0 + r1, rr) && Cong(a, l0 + r0 + alpha * g)
    requires Cong(c, v * h + r * g) && Cong(v, value)
    requires Cong(w, top * value + last) && Cong(alpha', alpha + r * top)
    ensures Cong(a + l1 + r1 + top * c + last * h, l + rr + w * h + alpha' * g)
  {
    hide Reduce;
    CongTimes(h, v, value);
    CongAdd(v * h, value * h, r * g, r * g);
    CongTimes(top, c, value * h + r * g);
    CongTimes(h, w, top * value + last);
    CongTimes(g, alpha', alpha + r * top);
    CongAdd4(a, l0 + r0 + alpha * g, l1, l1, r1, r1, top * c, top * (value * h + r * g));
    CongAdd(a + l1 + r1 + top * c, l0 + r0 + alpha * g + l1 + r1 + top * (value * h + r * g), last * h, last * h);
    CongAdd4(l0 + l1, l, r0 + r1, rr, (top * value + last) * h, w * h, (alpha + r * top) * g, alpha' * g);
    assert top * (value * h + r * g) == (top * value) * h + (r * top) * g by {
      assert top * (value * h) == (top * value) * h && top * (r * g) == (r * top) * g;
    }
    assert (top * value + last) * h == (top * value) * h + last * h;
    assert (alpha + r * top) * g == alpha * g + (r * top) * g;
  }

  /** Another commitment shifts the statement by its scaled difference. */
  lemma StatementShift(gens: Generators, v: int, v': int, a: int, y: Scalar, z: Scalar)
    requires |gens.hBold| == |gens.gBold|
    ensures AHatSum(gens, v', a, y, z) == AHatSum(gens, v, a, y, z) + Power(y, |gens.hBold| + 1) * (v' - v)
  {
    hide Reduce, Dot, LastTerm, Power, AddAll, Descending, Repeat, Neg;
    var top: int := Power(y, |gens.hBold| + 1);
    assert top * (v' - v) == top * v' - top * v;
  }
}
