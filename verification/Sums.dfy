/** Sums of products of scalars and points, as plain integers: the values the
    source reduces with `multiexp`, `wip` and `sum`. */
module Sums {
  import opened Scalars

  /** The weighted inner product of `u` and `v`; `w` may be longer than the two. */
  function WeightedDot(u: seq<int>, v: seq<int>, w: seq<int>): int
    requires |u| == |v| <= |w|
  {
    if |u| == 0 then 0 else
      var n := |u| - 1;
      WeightedDot(u[..n], v[..n], w) + u[n] * v[n] * w[n]
  }

  function Ones(n: nat): seq<int> {
    seq(n, _ => 1)
  }

  function Dot(u: seq<int>, v: seq<int>): int
    requires |u| == |v|
  {
    WeightedDot(u, v, Ones(|u|))
  }

  function Sum(u: seq<int>): int {
    if |u| == 0 then 0 else Sum(u[..|u| - 1]) + u[|u| - 1]
  }

  /** The terms handed to the multi-exponentiation library. */
  type Terms = seq<(Scalar, Point)>

  function Total(terms: Terms): int {
    if |terms| == 0 then 0 else
      var last := terms[|terms| - 1];
      Total(terms[..|terms| - 1]) + (last.0 as int) * (last.1 as int)
  }

  function MultiExp(terms: Terms): Point {
    Reduce(Total(terms))
  }

  // ---------- splitting

  /** Only the weights below the length of the vectors count. */
  lemma EmptyDot()
    ensures Dot([], []) == 0
  {
  }

  lemma {:induction false} WeightPrefix(u: seq<int>, v: seq<int>, w: seq<int>, w': seq<int>)
    requires |u| == |v| <= |w| && |u| <= |w'|
    requires w[..|u|] == w'[..|u|]
    ensures WeightedDot(u, v, w) == WeightedDot(u, v, w')
  {
    if |u| > 0 {
      var n := |u| - 1;
      assert w[n] == w[..|u|][n] == w'[n];
      assert w[..n] == w[..|u|][..n] == w'[..n];
      WeightPrefix(u[..n], v[..n], w, w');
    }
  }

  lemma {:induction false} DotStep(u: seq<int>, v: seq<int>)
    requires |u| == |v| > 0
    ensures var n := |u| - 1; Dot(u, v) == Dot(u[..n], v[..n]) + u[n] * v[n]
  {
    var n := |u| - 1;
    WeightPrefix(u[..n], v[..n], Ones(|u|), Ones(n));
  }

  lemma {:induction false} WeightedDotAppend(u: seq<int>, u': seq<int>, v: seq<int>, v': seq<int>, w: seq<int>)
    requires |u| == |v| && |u'| == |v'| && |u| + |u'| <= |w|
    ensures WeightedDot(u + u', v + v', w) == WeightedDot(u, v, w) + WeightedDot(u', v', w[|u|..])
  {
    if |u'| == 0 {
      assert u + u' == u && v + v' == v;
    } else {
      var n := |u'| - 1;
      WeightedDotAppend(u, u'[..n], v, v'[..n], w);
      assert (u + u')[..|u| + n] == u + u'[..n] && (v + v')[..|u| + n] == v + v'[..n];
    }
  }

  lemma {:induction false} DotAppend(u: seq<int>, u': seq<int>, v: seq<int>, v': seq<int>)
    requires |u| == |v| && |u'| == |v'|
    ensures Dot(u + u', v + v') == Dot(u, v) + Dot(u', v')
  {
    var w := Ones(|u| + |u'|);
    WeightedDotAppend(u, u', v, v', w);
    WeightPrefix(u, v, w, Ones(|u|));
    WeightPrefix(u', v', w[|u|..], Ones(|u'|));
  }

  lemma {:induction false} TotalAppend(s: Terms, t: Terms)
    ensures Total(s + t) == Total(s) + Total(t)
  {
    if |t| == 0 {
      assert s + t == s;
    } else {
      var n := |t| - 1;
      TotalAppend(s, t[..n]);
      assert (s + t)[..|s| + n] == s + t[..n];
    }
  }

  lemma TotalSnoc(s: Terms, c: Scalar, p: Point)
    ensures Total(s + [(c, p)]) == Total(s) + c * p
  {
    assert (s + [(c, p)])[..|s|] == s;
  }

  function Zip(u: seq<Scalar>, v: seq<Point>): Terms
    requires |u| == |v|
  {
    seq(|u|, i requires 0 <= i < |u| => (u[i], v[i]))
  }

  lemma {:induction false} TotalZip(u: seq<Scalar>, v: seq<Point>)
    requires |u| == |v|
    ensures Total(Zip(u, v)) == Dot(u, v)
  {
    if |u| > 0 {
      var n := |u| - 1;
      TotalZip(u[..n], v[..n]);
      assert Zip(u, v)[..n] == Zip(u[..n], v[..n]);
      DotStep(u, v);
    }
  }

  // ---------- linearity, up to congruence

  lemma ExpandProduct(x: int, y: int, s: int, t: int, u: int, v: int, h: int, k: int, w: int)
    ensures (x * u + y * v) * (s * h + t * k) * w
         == (x * s) * (u * h * w) + (x * t) * (u * k * w) + (y * s) * (v * h * w) + (y * t) * (v * k * w)
  {
    Foil(x * u, y * v, s * h, t * k);
    Cross(x, u, s, h);
    Cross(x, u, t, k);
    Cross(y, v, s, h);
    Cross(y, v, t, k);
    Distribute4((x * s) * (u * h), (x * t) * (u * k), (y * s) * (v * h), (y * t) * (v * k), w);
  }

  /** The weighted inner product is bilinear. */
  lemma {:induction false} Bilinear(a: seq<int>, b: seq<int>, u: seq<int>, v: seq<int>, h: seq<int>, k: seq<int>,
                                    x: int, y: int, s: int, t: int, w: seq<int>)
    requires |a| == |b| == |u| == |v| == |h| == |k| <= |w|
    requires forall i | 0 <= i < |a| :: Cong(a[i], x * u[i] + y * v[i])
    requires forall i | 0 <= i < |a| :: Cong(b[i], s * h[i] + t * k[i])
    ensures Cong(WeightedDot(a, b, w),
                 (x * s) * WeightedDot(u, h, w) + (x * t) * WeightedDot(u, k, w)
                 + (y * s) * WeightedDot(v, h, w) + (y * t) * WeightedDot(v, k, w))
  {
    hide Reduce;
    if |a| > 0 {
      var n := |a| - 1;
      Bilinear(a[..n], b[..n], u[..n], v[..n], h[..n], k[..n], x, y, s, t, w);
      CongMul(a[n], x * u[n] + y * v[n], b[n], s * h[n] + t * k[n]);
      CongTimes(w[n], a[n] * b[n], (x * u[n] + y * v[n]) * (s * h[n] + t * k[n]));
      ExpandProduct(x, y, s, t, u[n], v[n], h[n], k[n], w[n]);
      BilinearStep(x * s, x * t, y * s, y * t,
                   WeightedDot(u[..n], h[..n], w), WeightedDot(u[..n], k[..n], w),
                   WeightedDot(v[..n], h[..n], w), WeightedDot(v[..n], k[..n], w),
                   u[n] * h[n] * w[n], u[n] * k[n] * w[n], v[n] * h[n] * w[n], v[n] * k[n] * w[n],
                   WeightedDot(a[..n], b[..n], w), a[n] * b[n] * w[n]);
    }
  }

  lemma BilinearStep(c1: int, c2: int, c3: int, c4: int, d1: int, d2: int, d3: int, d4: int,
                     t1: int, t2: int, t3: int, t4: int, d: int, t: int)
    requires Cong(d, c1 * d1 + c2 * d2 + c3 * d3 + c4 * d4)
    requires Cong(t, c1 * t1 + c2 * t2 + c3 * t3 + c4 * t4)
    ensures Cong(d + t, c1 * (d1 + t1) + c2 * (d2 + t2) + c3 * (d3 + t3) + c4 * (d4 + t4))
  {
    hide Reduce;
    CongAdd(d, c1 * d1 + c2 * d2 + c3 * d3 + c4 * d4, t, c1 * t1 + c2 * t2 + c3 * t3 + c4 * t4);
    assert c1 * (d1 + t1) == c1 * d1 + c1 * t1;
    assert c2 * (d2 + t2) == c2 * d2 + c2 * t2;
    assert c3 * (d3 + t3) == c3 * d3 + c3 * t3;
    assert c4 * (d4 + t4) == c4 * d4 + c4 * t4;
  }

  /** Scaling a sum term by term. */
  lemma ScaleStep(d': int, d: int, t': int, t: int, s: int)
    requires Cong(d', s * d) && Cong(t', s * t)
    ensures Cong(d' + t', s * (d + t))
  {
    hide Reduce;
    CongAdd(d', s * d, t', s * t);
    assert s * (d + t) == s * d + s * t;
  }

  /** A vector scaled element by element scales its inner products. */
  lemma {:induction false} DotScaled(u: seq<int>, s: int, u': seq<int>, v: seq<int>, w: seq<int>)
    requires |u| == |u'| == |v| <= |w|
    requires forall i | 0 <= i < |u| :: Cong(u'[i], u[i] * s)
    ensures Cong(WeightedDot(u', v, w), s * WeightedDot(u, v, w))
  {
    hide Reduce;
    if |u| > 0 {
      var n := |u| - 1;
      DotScaled(u[..n], s, u'[..n], v[..n], w);
      CongTimes(v[n], u'[n], u[n] * s);
      CongTimes(w[n], u'[n] * v[n], u[n] * s * v[n]);
      var d, t := WeightedDot(u[..n], v[..n], w), u[n] * v[n] * w[n];
      ScaleProduct(u[n], s, v[n], w[n]);
      ScaleStep(WeightedDot(u'[..n], v[..n], w), d, u'[n] * v[n] * w[n], t, s);
    }
  }

  lemma ScaleProduct(u: int, s: int, v: int, w: int)
    ensures u * s * v * w == s * (u * v * w)
  {
    assert u * s * v == s * (u * v);
  }

  /** Scaling the weights scales the weighted inner product. */
  lemma {:induction false} WeightScaled(u: seq<int>, v: seq<int>, w: seq<int>, s: int, w': seq<int>)
    requires |u| == |v| <= |w| && |u| <= |w'|
    requires forall i | 0 <= i < |u| :: Cong(w'[i], w[i] * s)
    ensures Cong(WeightedDot(u, v, w'), s * WeightedDot(u, v, w))
  {
    hide Reduce;
    if |u| > 0 {
      var n := |u| - 1;
      WeightScaled(u[..n], v[..n], w, s, w');
      CongTimes(u[n] * v[n], w'[n], w[n] * s);
      var d, t := WeightedDot(u[..n], v[..n], w), u[n] * v[n] * w[n];
      ScaleWeight(u[n] * v[n], w[n], s);
      ScaleStep(WeightedDot(u[..n], v[..n], w'), d, u[n] * v[n] * w'[n], t, s);
    }
  }

  lemma ScaleWeight(p: int, w: int, s: int)
    ensures p * (w * s) == s * (p * w)
  {
  }
}
