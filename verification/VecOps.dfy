/** Element-wise vector operations on scalars. */
module VecOps {
  import opened Scalars
  import opened Sums

  function Min(a: nat, b: nat): nat {
    if a <= b then a else b
  }

  /** The sum of two vectors, as long as the shorter one. */
  function AddAll(u: seq<Scalar>, v: seq<Scalar>): (r: seq<Scalar>)
    ensures |r| == Min(|u|, |v|)
  {
    seq(Min(|u|, |v|), i requires 0 <= i < Min(|u|, |v|) => Add(u[i], v[i]))
  }

  function MulAll(u: seq<Scalar>, v: seq<Scalar>): (r: seq<Scalar>)
    ensures |r| == Min(|u|, |v|)
  {
    seq(Min(|u|, |v|), i requires 0 <= i < Min(|u|, |v|) => Mul(u[i], v[i]))
  }

  function AddEach(u: seq<Scalar>, s: Scalar): (r: seq<Scalar>)
    ensures |r| == |u|
  {
    seq(|u|, i requires 0 <= i < |u| => Add(u[i], s))
  }

  function SubEach(u: seq<Scalar>, s: Scalar): (r: seq<Scalar>)
    ensures |r| == |u|
  {
    seq(|u|, i requires 0 <= i < |u| => Sub(u[i], s))
  }

  function Scale(u: seq<Scalar>, s: Scalar): (r: seq<Scalar>)
    ensures |r| == |u|
  {
    seq(|u|, i requires 0 <= i < |u| => Mul(u[i], s))
  }

  /** The weighted inner product, over the shortest of the three vectors. */
  function Wip(u: seq<Scalar>, v: seq<Scalar>, w: seq<Scalar>): Scalar {
    var n := Min(Min(|u|, |v|), |w|);
    Reduce(WeightedDot(u[..n], v[..n], w[..n]))
  }

  /** Powers of `v`, starting with one; never fewer than two of them. */
  method NewPower(v: Scalar, len: nat) returns (output: seq<Scalar>)
    ensures |output| == if len < 2 then 2 else len
    ensures forall i | 0 <= i < |output| :: output[i] == Power(v, i)
  {
    hide Reduce;
    output := [1, v];
    PowerOne(v);
    for i := 2 to (if len < 2 then 2 else len)
      invariant |output| == i
      invariant forall k | 0 <= k < i :: output[k] == Power(v, k)
    {
      output := output + [Mul(output[i - 1], v)];
    }
  }

  lemma PowerOne(v: Scalar)
    ensures Power(v, 1) == v
  {
    assert Power(v, 0) == 1;
    assert 1 * v == v;
  }

  /** Splits a vector in two halves of equal length, the second one padded. */
  method Split<T>(u: seq<T>, pad: T) returns (left: seq<T>, right: seq<T>)
    ensures |left| == |right| == (|u| + 1) / 2
    ensures |u| % 2 == 0 ==> left + right == u
    ensures |u| % 2 == 1 ==> left + right == u + [pad]
  {
    var half := |u| / 2 + |u| % 2;
    left, right := u[..half], u[half..];
    while |right| < |left|
      invariant |u| - half <= |right| <= |left|
      invariant right[..|u| - half] == u[half..]
      invariant forall i | |u| - half <= i < |right| :: right[i] == pad
    {
      right := right + [pad];
    }
    assert left + u[half..] == u;
  }
}
