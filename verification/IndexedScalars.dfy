/** The verifier's substitute for folding generators: one scalar per base
    generator, with the base generators grouped by the folded generator they
    ended up in. */
module Indexing {
  import opened Scalars
  import opened Sums
  import opened WipArgument

  // ---------- groups of positions

  /** All positions, with multiplicity. */
  ghost function Bag(positions: seq<seq<nat>>): multiset<nat> {
    if |positions| == 0 then multiset{} else
      Bag(positions[..|positions| - 1]) + multiset(positions[|positions| - 1])
  }

  function Range(n: nat): seq<nat> {
    seq(n, i => i)
  }

  /** The groups contain every position below `n` exactly once. */
  ghost predicate Partition(positions: seq<seq<nat>>, n: nat) {
    Bag(positions) == multiset(Range(n))
  }

  function MergedPositions(positions: seq<seq<nat>>): seq<seq<nat>> {
    var j := |positions| / 2;
    var c := |positions| - j;
    seq(c, k requires 0 <= k < c => if k < j then positions[k] + positions[c + k] else positions[k])
  }

  lemma {:induction false} BagAppend(p: seq<seq<nat>>, q: seq<seq<nat>>)
    ensures Bag(p + q) == Bag(p) + Bag(q)
  {
    if |q| == 0 {
      assert p + q == p;
    } else {
      var n := |q| - 1;
      BagAppend(p, q[..n]);
      assert (p + q)[..|p| + n] == p + q[..n];
    }
  }

  lemma BagSlice(p: seq<seq<nat>>, lo: nat, hi: nat)
    requires lo <= hi <= |p|
    ensures Bag(p) == Bag(p[..lo]) + Bag(p[lo..hi]) + Bag(p[hi..])
  {
    hide Bag;
    assert p == p[..lo] + p[lo..hi] + p[hi..];
    BagAppend(p[..lo] + p[lo..hi], p[hi..]);
    BagAppend(p[..lo], p[lo..hi]);
  }

  lemma BagSnoc(p: seq<seq<nat>>, s: seq<nat>)
    ensures Bag(p + [s]) == Bag(p) + multiset(s)
  {
    assert (p + [s])[..|p|] == p;
  }

  lemma {:induction false} RangeMembers(n: nat)
    ensures forall x :: multiset(Range(n))[x] == if 0 <= x < n then 1 else 0
  {
    if n > 0 {
      RangeMembers(n - 1);
      assert Range(n) == Range(n - 1) + [n - 1];
    }
  }

  lemma PartitionMembers(positions: seq<seq<nat>>, n: nat)
    requires Partition(positions, n)
    ensures forall x :: Bag(positions)[x] == if 0 <= x < n then 1 else 0
  {
    RangeMembers(n);
  }

  function Pairs(p: seq<seq<nat>>, q: seq<seq<nat>>): (r: seq<seq<nat>>)
    requires |p| == |q|
    ensures |r| == |p|
  {
    seq(|p|, k requires 0 <= k < |p| => p[k] + q[k])
  }

  /** Merging keeps a partition. */
  lemma MergeKeepsBag(p: seq<seq<nat>>)
    ensures Bag(MergedPositions(p)) == Bag(p)
  {
    var j := |p| / 2;
    var c := |p| - j;
    assert MergedPositions(p) == Pairs(p[..j], p[c..]) + p[j..c];
    PairsBag(p[..j], p[c..], Pairs(p[..j], p[c..]));
    BagSlice(p, j, c);
    BagAppend(Pairs(p[..j], p[c..]), p[j..c]);
  }

  lemma {:induction false} PairsBag(p: seq<seq<nat>>, q: seq<seq<nat>>, r: seq<seq<nat>>)
    requires |p| == |q| == |r|
    requires forall k | 0 <= k < |r| :: r[k] == p[k] + q[k]
    ensures Bag(r) == Bag(p) + Bag(q)
  {
    if |r| > 0 {
      var n := |r| - 1;
      PairsBag(p[..n], q[..n], r[..n]);
    }
  }

  // ---------- sums over positions

  ghost predicate Within(group: seq<nat>, n: nat) {
    forall i | 0 <= i < |group| :: group[i] < n
  }

  /** The sum of scalar times base generator over a group of positions. */
  ghost function At(group: seq<nat>, inner: seq<Scalar>, base: seq<Point>): int
    requires |base| <= |inner| && Within(group, |base|)
  {
    if |group| == 0 then 0 else
      var x := group[|group| - 1];
      At(group[..|group| - 1], inner, base) + (inner[x] as int) * base[x]
  }

  lemma {:induction false} AtAppend(g: seq<nat>, g': seq<nat>, inner: seq<Scalar>, base: seq<Point>)
    requires |base| <= |inner| && Within(g, |base|) && Within(g', |base|)
    ensures Within(g + g', |base|)
    ensures At(g + g', inner, base) == At(g, inner, base) + At(g', inner, base)
  {
    if |g'| == 0 {
      assert g + g' == g;
    } else {
      var n := |g'| - 1;
      assert (g + g')[..|g| + n] == g + g'[..n];
      AtAppend(g, g'[..n], inner, base);
    }
  }

  /** Scaling every scalar of a group scales its sum. */
  lemma {:induction false} AtScaled(g: seq<nat>, inner: seq<Scalar>, inner': seq<Scalar>, base: seq<Point>, s: Scalar)
    requires |base| <= |inner| == |inner'| && Within(g, |base|)
    requires forall i | 0 <= i < |g| :: inner'[g[i]] == Mul(inner[g[i]], s)
    ensures Cong(At(g, inner', base), s * At(g, inner, base))
  {
    hide Reduce, Cong, Mul;
    if |g| == 0 {
      CongZero(s);
    } else {
      var n, x := |g| - 1, g[|g| - 1];
      AtScaled(g[..n], inner, inner', base, s);
      ScaledProduct(inner[x], s, base[x]);
      ScaleStep(At(g[..n], inner', base), At(g[..n], inner, base), (inner'[x] as int) * base[x], (inner[x] as int) * base[x], s);
    }
  }

  lemma CongZero(s: int)
    ensures Cong(0, s * 0)
  {
    hide Reduce;
  }

  lemma ScaledProduct(c: Scalar, s: Scalar, p: Point)
    ensures Cong(Mul(c, s) * p, s * (c * p))
  {
    hide Reduce;
    Reduced(c * s);
    CongTimes(p, Mul(c, s), c * s);
    assert c * s * p == s * (c * p);
  }

  /** The indexed scalars stand for the folded generators `gens` of `base`. */
  ghost predicate Represents(inner: seq<Scalar>, positions: seq<seq<nat>>, base: seq<Point>, gens: seq<Point>) {
    && |gens| == |positions| && |base| <= |inner|
    && Partition(positions, |base|)
    && (forall j | 0 <= j < |positions| :: Within(positions[j], |base|))
    && (forall j | 0 <= j < |positions| :: Cong(gens[j], At(positions[j], inner, base)))
  }

  /** The scalars after both sections were multiplied by their factor. */
  ghost predicate Scaled(positions: seq<seq<nat>>, inner: seq<Scalar>, inner': seq<Scalar>, s0: Scalar, s1: Scalar) {
    && |inner'| == |inner|
    && (forall j | 0 <= j < |positions| :: Within(positions[j], |inner|))
    && (forall j, i | 0 <= j < |positions| && 0 <= i < |positions[j]| ::
          inner'[positions[j][i]] == Mul(inner[positions[j][i]], if j < |positions| / 2 then s0 else s1))
  }

  lemma FoldedSum(g: Point, t: int, s: Scalar, t': int)
    requires Cong(g, t) && Cong(t', s * t)
    ensures Cong(s * g, t')
  {
    hide Reduce;
    CongTimes(s, g, t);
  }

  /** One round on the index structure is one folding of the generators. */
  lemma RoundRefinesFolding(positions: seq<seq<nat>>, inner: seq<Scalar>, inner': seq<Scalar>, s0: Scalar, s1: Scalar,
                            base: seq<Point>, gens: seq<Point>)
    requires Represents(inner, positions, base, gens) && Scaled(positions, inner, inner', s0, s1)
    requires |gens| == 1 || |gens| % 2 == 0
    ensures Represents(inner', MergedPositions(positions), base, FoldStep(gens, s0, s1))
  {
    hide Reduce, Cong;
    MergeKeepsBag(positions);
    var merged, folded := MergedPositions(positions), FoldStep(gens, s0, s1);
    forall j | 0 <= j < |merged|
      ensures Within(merged[j], |base|) && Cong(folded[j], At(merged[j], inner', base))
    {
      FoldedGroup(positions, inner, inner', s0, s1, base, gens, j);
    }
  }

  lemma ScaledPoint(g: Point, t: int, s: Scalar, t': int)
    requires Cong(g, t) && Cong(t', s * t)
    ensures Cong(Reduce(s * g), t')
  {
    hide Reduce;
    FoldedSum(g, t, s, t');
    Reduced(s * g);
  }

  lemma PairedSum(g: Point, g': Point, s0: Scalar, s1: Scalar, x: int, y: int, x': int, y': int)
    requires Cong(g, x) && Cong(g', y) && Cong(x', s0 * x) && Cong(y', s1 * y)
    ensures Cong(Reduce(s0 * g + s1 * g'), x' + y')
  {
    hide Reduce;
    FoldedSum(g, x, s0, x');
    FoldedSum(g', y, s1, y');
    CongAdd(s0 * g, x', s1 * g', y');
    Reduced(s0 * g + s1 * g');
  }

  lemma PairedGroup(lo: seq<nat>, hi: seq<nat>, inner: seq<Scalar>, inner': seq<Scalar>, s0: Scalar, s1: Scalar,
                    base: seq<Point>, g: Point, g': Point)
    requires |base| <= |inner| == |inner'| && Within(lo, |base|) && Within(hi, |base|)
    requires forall i | 0 <= i < |lo| :: inner'[lo[i]] == Mul(inner[lo[i]], s0)
    requires forall i | 0 <= i < |hi| :: inner'[hi[i]] == Mul(inner[hi[i]], s1)
    requires Cong(g, At(lo, inner, base)) && Cong(g', At(hi, inner, base))
    ensures Within(lo + hi, |base|)
    ensures Cong(Reduce(s0 * g + s1 * g'), At(lo + hi, inner', base))
  {
    hide Reduce, Cong, Mul, At;
    AtScaled(lo, inner, inner', base, s0);
    AtScaled(hi, inner, inner', base, s1);
    AtAppend(lo, hi, inner', base);
    PairedSum(g, g', s0, s1, At(lo, inner, base), At(hi, inner, base), At(lo, inner', base), At(hi, inner', base));
  }

  lemma FoldedGroup(positions: seq<seq<nat>>, inner: seq<Scalar>, inner': seq<Scalar>, s0: Scalar, s1: Scalar,
                    base: seq<Point>, gens: seq<Point>, j: nat)
    requires Represents(inner, positions, base, gens) && Scaled(positions, inner, inner', s0, s1)
    requires |gens| == 1 || |gens| % 2 == 0
    requires j < |MergedPositions(positions)|
    ensures j < |FoldStep(gens, s0, s1)| && Within(MergedPositions(positions)[j], |base|)
    ensures Cong(FoldStep(gens, s0, s1)[j], At(MergedPositions(positions)[j], inner', base))
  {
    hide Reduce, Cong, Mul, Partition, At;
    if |gens| == 1 {
      AtScaled(positions[0], inner, inner', base, s1);
      ScaledPoint(gens[0], At(positions[0], inner, base), s1, At(positions[0], inner', base));
    } else {
      var n := |gens| / 2;
      PairedGroup(positions[j], positions[n + j], inner, inner', s0, s1, base, gens[j], gens[n + j]);
      assert FoldStep(gens, s0, s1)[j] == Reduce(s0 * gens[j] + s1 * gens[n + j]);
    }
  }

  // ---------- all groups together

  lemma {:induction false} AtRemove(g: seq<nat>, k: nat, inner: seq<Scalar>, base: seq<Point>)
    requires |base| <= |inner| && Within(g, |base|) && k < |g|
    ensures Within(g[..k] + g[k + 1..], |base|)
    ensures At(g, inner, base) == At(g[..k] + g[k + 1..], inner, base) + (inner[g[k]] as int) * base[g[k]]
  {
    AtAppend(g[..k], g[k + 1..], inner, base);
    assert g == g[..k + 1] + g[k + 1..] && g[..k + 1][..k] == g[..k];
    AtAppend(g[..k + 1], g[k + 1..], inner, base);
  }

  lemma TakeMatch(g: seq<nat>, g': seq<nat>) returns (k: nat)
    requires |g| > 0 && multiset(g) == multiset(g')
    ensures k < |g'| && g'[k] == g[|g| - 1]
    ensures multiset(g[..|g| - 1]) == multiset(g'[..k] + g'[k + 1..])
  {
    var n, x := |g| - 1, g[|g| - 1];
    assert g == g[..n] + [x];
    assert x in multiset(g');
    k :| 0 <= k < |g'| && g'[k] == x;
    var front, back := g'[..k], g'[k + 1..];
    assert g' == front + [x] + back;
    assert multiset(g') == multiset(front + back) + multiset{x};
    assert multiset(g) == multiset(g[..n]) + multiset{x};
    CancelOne(multiset(g[..n]), multiset(front + back), x);
  }

  lemma CancelOne(a: multiset<nat>, b: multiset<nat>, x: nat)
    requires a + multiset{x} == b + multiset{x}
    ensures a == b
  {
    assert a == (a + multiset{x}) - multiset{x};
    assert b == (b + multiset{x}) - multiset{x};
  }

  /** A sum over positions does not depend on their order. */
  lemma {:induction false} AtPermuted(g: seq<nat>, g': seq<nat>, inner: seq<Scalar>, base: seq<Point>)
    requires |base| <= |inner| && Within(g, |base|) && Within(g', |base|)
    requires multiset(g) == multiset(g')
    ensures At(g, inner, base) == At(g', inner, base)
  {
    if |g| == 0 {
      assert |multiset(g')| == |g'|;
    } else {
      var n := |g| - 1;
      var k := TakeMatch(g, g');
      AtRemove(g', k, inner, base);
      AtPermuted(g[..n], g'[..k] + g'[k + 1..], inner, base);
    }
  }

  ghost function Flatten(positions: seq<seq<nat>>): seq<nat> {
    if |positions| == 0 then [] else Flatten(positions[..|positions| - 1]) + positions[|positions| - 1]
  }

  lemma {:induction false} FlattenBag(positions: seq<seq<nat>>)
    ensures multiset(Flatten(positions)) == Bag(positions)
  {
    if |positions| > 0 {
      FlattenBag(positions[..|positions| - 1]);
    }
  }

  lemma {:induction false} FlattenSum(positions: seq<seq<nat>>, gens: seq<Point>, inner: seq<Scalar>, base: seq<Point>)
    requires |gens| == |positions| && |base| <= |inner|
    requires forall j | 0 <= j < |positions| :: Within(positions[j], |base|)
    requires forall j | 0 <= j < |positions| :: Cong(gens[j], At(positions[j], inner, base))
    ensures Within(Flatten(positions), |base|)
    ensures Cong(Sum(gens), At(Flatten(positions), inner, base))
  {
    hide Reduce;
    if |positions| > 0 {
      var n := |positions| - 1;
      FlattenSum(positions[..n], gens[..n], inner, base);
      AtAppend(Flatten(positions[..n]), positions[n], inner, base);
      CongAdd(Sum(gens[..n]), At(Flatten(positions[..n]), inner, base), gens[n], At(positions[n], inner, base));
    }
  }

  lemma {:induction false} AtRange(inner: seq<Scalar>, base: seq<Point>, n: nat)
    requires n <= |base| <= |inner|
    ensures Within(Range(n), |base|)
    ensures At(Range(n), inner, base) == Dot(inner[..n], base[..n])
  {
    if n > 0 {
      AtRange(inner, base, n - 1);
      assert Range(n)[..n - 1] == Range(n - 1);
      DotStep(inner[..n], base[..n]);
      assert inner[..n][..n - 1] == inner[..n - 1] && base[..n][..n - 1] == base[..n - 1];
    }
  }

  /** The sum of the folded generators, without folding. */
  lemma RepresentedSum(inner: seq<Scalar>, positions: seq<seq<nat>>, base: seq<Point>, gens: seq<Point>)
    requires Represents(inner, positions, base, gens)
    ensures Cong(Sum(gens), Dot(inner[..|base|], base))
  {
    hide Reduce, Cong;
    FlattenSum(positions, gens, inner, base);
    FlattenBag(positions);
    AtRange(inner, base, |base|);
    AtPermuted(Flatten(positions), Range(|base|), inner, base);
    assert base[..|base|] == base;
  }

  // ---------- the structure itself

  ghost predicate Distinct(positions: seq<seq<nat>>) {
    forall j, i, j', i' | 0 <= j < |positions| && 0 <= i < |positions[j]| && 0 <= j' < |positions| && 0 <= i' < |positions[j']|
      && positions[j][i] == positions[j'][i'] :: j == j' && i == i'
  }

  lemma BagContains(p: seq<seq<nat>>, j: nat, i: nat)
    requires j < |p| && i < |p[j]|
    ensures p[j][i] in Bag(p)
  {
    BagSlice(p, j, j + 1);
    assert p[j..j + 1] == [] + [p[j]];
    BagSnoc([], p[j]);
    assert p[j][i] in multiset(p[j]);
  }

  lemma TwiceInGroup(g: seq<nat>, i: nat, i': nat)
    requires i < i' < |g| && g[i] == g[i']
    ensures multiset(g)[g[i]] >= 2
  {
    assert g == g[..i'] + g[i'..];
    assert g[..i'][i] == g[i] && g[i'..][0] == g[i];
    assert g[i] in multiset(g[..i']) && g[i] in multiset(g[i'..]);
  }

  lemma PartitionDistinct(p: seq<seq<nat>>, n: nat)
    requires Partition(p, n)
    ensures Distinct(p)
    ensures forall j | 0 <= j < |p| :: Within(p[j], n)
  {
    PartitionMembers(p, n);
    forall j | 0 <= j < |p| ensures Within(p[j], n) {
      forall i | 0 <= i < |p[j]| ensures p[j][i] < n {
        BagContains(p, j, i);
      }
    }
    forall j, i, j', i' | 0 <= j < |p| && 0 <= i < |p[j]| && 0 <= j' < |p| && 0 <= i' < |p[j']| && p[j][i] == p[j'][i']
      ensures j == j' && i == i'
    {
      if j < j' || (j == j' && i < i') {
        PlacedTwice(p, j, i, j', i');
      } else if j' < j || (j == j' && i' < i) {
        PlacedTwice(p, j', i', j, i);
      }
    }
  }

  lemma PlacedTwice(p: seq<seq<nat>>, j: nat, i: nat, j': nat, i': nat)
    requires j < |p| && i < |p[j]| && j' < |p| && i' < |p[j']| && p[j][i] == p[j'][i']
    requires j < j' || (j == j' && i < i')
    ensures Bag(p)[p[j][i]] >= 2
  {
    if j < j' {
      assert p == p[..j'] + p[j'..];
      BagAppend(p[..j'], p[j'..]);
      BagContains(p[..j'], j, i);
      BagContains(p[j'..], 0, i');
    } else {
      TwiceInGroup(p[j], i, i');
      BagSlice(p, j, j + 1);
      assert p[j..j + 1] == [] + [p[j]];
      BagSnoc([], p[j]);
    }
  }

  lemma {:induction false} SingletonsPartition(n: nat)
    ensures Partition(seq(n, i => [i]), n)
  {
    if n > 0 {
      SingletonsPartition(n - 1);
      assert seq(n, i => [i])[..n - 1] == seq(n - 1, i => [i]);
      assert Range(n) == Range(n - 1) + [n - 1];
    }
  }

  class IndexedScalars {
    var inner: seq<Scalar>
    var positions: seq<seq<nat>>

    constructor WithCapacity(capacity: nat)
      ensures inner == seq(capacity + capacity % 2, _ => 1)
      ensures positions == seq(capacity, i => [i])
    {
      inner := seq(capacity + capacity % 2, _ => 1);
      positions := seq(capacity, i => [i]);
    }

    ghost predicate InBounds()
      reads this
    {
      forall j, i | 0 <= j < |positions| && 0 <= i < |positions[j]| :: positions[j][i] < |inner|
    }

    /** Multiplies the scalars of one half of the groups. */
    method Next(section: nat, scalar: Scalar)
      requires section < 2 && Distinct(positions) && InBounds()
      modifies this`inner
      ensures |inner| == |old(inner)| && InBounds()
      ensures var lo, hi := section * |positions| / 2, (section + 1) * |positions| / 2;
              forall j, i | 0 <= j < |positions| && 0 <= i < |positions[j]| ::
                && (lo <= j < hi ==> inner[positions[j][i]] == Mul(old(inner)[positions[j][i]], scalar))
                && (!(lo <= j < hi) ==> inner[positions[j][i]] == old(inner)[positions[j][i]])
    {
      hide Mul;
      var lo, hi := section * |positions| / 2, (section + 1) * |positions| / 2;
      for g := lo to hi
        invariant |inner| == |old(inner)|
        invariant forall j, i | 0 <= j < |positions| && 0 <= i < |positions[j]| ::
          && (lo <= j < g ==> inner[positions[j][i]] == Mul(old(inner)[positions[j][i]], scalar))
          && (!(lo <= j < g) ==> inner[positions[j][i]] == old(inner)[positions[j][i]])
      {
        for k := 0 to |positions[g]|
          invariant |inner| == |old(inner)|
          invariant forall j, i | 0 <= j < |positions| && 0 <= i < |positions[j]| ::
            && (lo <= j < g || (j == g && i < k) ==> inner[positions[j][i]] == Mul(old(inner)[positions[j][i]], scalar))
            && (!(lo <= j < g || (j == g && i < k)) ==> inner[positions[j][i]] == old(inner)[positions[j][i]])
        {
          var pos := positions[g][k];
          inner := inner[pos := Mul(inner[pos], scalar)];
        }
      }
    }

    /** Joins the second half of the groups to the first. */
    method Merge()
      modifies this`positions
      ensures positions == MergedPositions(old(positions))
    {
      ghost var p := positions;
      var j := |positions| / 2;
      ghost var c := |p| - j;
      for i := 1 to j + 1
        invariant |positions| == |p| - (i - 1)
        invariant forall k | 0 <= k < |positions| ::
          (j - i < k < j ==> positions[k] == p[k] + p[c + k]) && (!(j - i < k < j) ==> positions[k] == p[k])
      {
        var last := |positions| - 1;
        var pos := positions[last];
        positions := positions[..last];
        positions := positions[j - i := positions[j - i] + pos];
      }
      assert positions == MergedPositions(p);
    }
  }
}
