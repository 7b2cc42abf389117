/** The scalars of the index structure, position by position. */
module IndexedProducts {
  import opened Scalars
  import opened WipArgument
  import opened Modulo
  import opened Indexing

  /** The length of a vector of length `n` after `k` foldings. */
  function Folds(n: nat, k: nat): (r: nat)
    ensures n > 0 ==> r > 0
  {
    if k == 0 then n else Half(Folds(n, k - 1))
  }

  /** The scalar of position `q`: every round multiplies it by its first factor if the
      position, modulo the length of the vector, lies in the first half, and by its
      second factor otherwise. */
  function ScalarAt(factors: seq<(Scalar, Scalar)>, n: nat, q: nat): Scalar
    requires n > 0
  {
    if factors == [] then 1 else
      var k := |factors| - 1;
      var length := Folds(n, k);
      Mul(ScalarAt(factors[..k], n, q), if q % length < length / 2 then factors[k].0 else factors[k].1)
  }

  /** The structure after the given rounds on `n` positions. */
  ghost predicate Explicit(inner: seq<Scalar>, positions: seq<seq<nat>>, n: nat, factors: seq<(Scalar, Scalar)>) {
    && 0 < n <= |inner| && |positions| == Folds(n, |factors|)
    && (forall j, i | 0 <= j < |positions| && 0 <= i < |positions[j]| :: positions[j][i] % |positions| == j)
    && (forall q | 0 <= q < n :: inner[q] == ScalarAt(factors, n, q))
  }

  lemma ExplicitStart(n: nat)
    requires n > 0
    ensures Explicit(seq(n + n % 2, _ => 1), seq(n, i => [i]), n, [])
  {
    forall j | 0 <= j < n ensures j % n == j {
      HalvedRemainder(j, n);
    }
  }

  lemma HalvedRemainder(x: nat, h: nat)
    requires h > 0
    ensures x < h ==> x % h == x
    ensures x % (2 * h) % h == x % h && (x % (2 * h) >= h ==> x % (2 * h) - h == x % h)
  {
    if x < h {
      ModuloUnique(x, h, 0, x);
    }
    var q, r := x / (2 * h), x % (2 * h);
    assert x == (2 * h) * q + r;
    if r < h {
      assert (2 * h) * q == (2 * q) * h;
      ModuloUnique(x, h, 2 * q, r);
      ModuloUnique(r, h, 0, r);
    } else {
      assert (2 * h) * q + r == (2 * q + 1) * h + (r - h);
      ModuloUnique(x, h, 2 * q + 1, r - h);
      ModuloUnique(r, h, 1, r - h);
    }
  }

  lemma {:induction false} BagFind(p: seq<seq<nat>>, x: nat) returns (j: nat, i: nat)
    requires x in Bag(p)
    ensures j < |p| && i < |p[j]| && p[j][i] == x
  {
    var n := |p| - 1;
    if x in p[n] {
      j := n;
      i :| 0 <= i < |p[n]| && p[n][i] == x;
    } else {
      j, i := BagFind(p[..n], x);
    }
  }

  lemma ScaledAt(positions: seq<seq<nat>>, inner: seq<Scalar>, inner': seq<Scalar>, s0: Scalar, s1: Scalar,
                 n: nat, factors: seq<(Scalar, Scalar)>, q: nat)
    requires Partition(positions, n) && Explicit(inner, positions, n, factors) && Scaled(positions, inner, inner', s0, s1) && q < n
    ensures inner'[q] == ScalarAt(factors + [(s0, s1)], n, q)
  {
    hide Mul, Bag, Folds;
    PartitionMembers(positions, n);
    var j, i := BagFind(positions, q);
    assert (factors + [(s0, s1)])[..|factors|] == factors;
    assert positions[j][i] % |positions| == j;
  }

  lemma MergedResidue(positions: seq<seq<nat>>, h: nat, j: nat, i: nat)
    requires h > 0 && |positions| == 2 * h && j < h && i < |positions[j]| + |positions[h + j]|
    requires forall j, i | 0 <= j < |positions| && 0 <= i < |positions[j]| :: positions[j][i] % (2 * h) == j
    ensures (positions[j] + positions[h + j])[i] % h == j
  {
    var x := (positions[j] + positions[h + j])[i];
    assert x % (2 * h) == if i < |positions[j]| then j else h + j;
    HalvedRemainder(x, h);
    HalvedRemainder(j, h);
  }

  lemma MergedResidues(positions: seq<seq<nat>>)
    requires |positions| == 1 || (|positions| > 0 && |positions| % 2 == 0)
    requires forall j, i | 0 <= j < |positions| && 0 <= i < |positions[j]| :: positions[j][i] % |positions| == j
    ensures var merged := MergedPositions(positions);
            && |merged| == Half(|positions|)
            && (forall j, i | 0 <= j < |merged| && 0 <= i < |merged[j]| :: merged[j][i] % |merged| == j)
  {
    var merged, h := MergedPositions(positions), |positions| / 2;
    if |positions| == 1 {
      assert merged == positions;
    } else {
      assert |positions| == 2 * h && |merged| == h;
      forall j, i | 0 <= j < h && 0 <= i < |merged[j]| ensures merged[j][i] % h == j {
        assert merged[j] == positions[j] + positions[h + j];
        MergedResidue(positions, h, j, i);
      }
    }
  }

  /** A round on the structure adds its two factors. */
  lemma ExplicitRound(positions: seq<seq<nat>>, inner: seq<Scalar>, inner': seq<Scalar>, s0: Scalar, s1: Scalar,
                      n: nat, factors: seq<(Scalar, Scalar)>)
    requires Partition(positions, n) && Explicit(inner, positions, n, factors) && Scaled(positions, inner, inner', s0, s1)
    requires |positions| == 1 || |positions| % 2 == 0
    ensures Explicit(inner', MergedPositions(positions), n, factors + [(s0, s1)])
  {
    hide Mul, Partition, MergedPositions;
    MergedResidues(positions);
    forall q | 0 <= q < n ensures inner'[q] == ScalarAt(factors + [(s0, s1)], n, q) {
      ScaledAt(positions, inner, inner', s0, s1, n, factors, q);
    }
  }
}
