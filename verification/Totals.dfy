/** Sums over the elements of a list, whatever their order. */
module Totals {

  function SumBy<T>(f: T -> nat, xs: seq<T>): nat {
    if xs == [] then 0 else SumBy(f, xs[..|xs| - 1]) + f(xs[|xs| - 1])
  }

  lemma SumAppend<T>(f: T -> nat, xs: seq<T>, x: T)
    ensures SumBy(f, xs + [x]) == SumBy(f, xs) + f(x)
  {
    assert (xs + [x])[..|xs|] == xs;
  }

  lemma {:induction false} SumConcat<T>(f: T -> nat, a: seq<T>, b: seq<T>)
    ensures SumBy(f, a + b) == SumBy(f, a) + SumBy(f, b)
  {
    if b == [] {
      assert a + b == a;
    } else {
      assert (a + b)[..|a + b| - 1] == a + b[..|b| - 1];
      SumConcat(f, a, b[..|b| - 1]);
    }
  }

  lemma SumFirst<T>(f: T -> nat, xs: seq<T>)
    requires xs != []
    ensures SumBy(f, xs) == f(xs[0]) + SumBy(f, xs[1..])
  {
    assert xs == [xs[0]] + xs[1..] && [] + [xs[0]] == [xs[0]];
    SumConcat(f, [xs[0]], xs[1..]);
    SumAppend(f, [], xs[0]);
  }

  lemma SumPrefix<T>(f: T -> nat, xs: seq<T>, n: nat)
    requires n <= |xs|
    ensures SumBy(f, xs[..n]) <= SumBy(f, xs)
    ensures n < |xs| ==> SumBy(f, xs[..n + 1]) == SumBy(f, xs[..n]) + f(xs[n])
  {
    assert xs == xs[..n] + xs[n..];
    SumConcat(f, xs[..n], xs[n..]);
    if n < |xs| {
      assert xs[..n + 1] == xs[..n] + [xs[n]];
      SumAppend(f, xs[..n], xs[n]);
    }
  }

  /** The elements but the one at `i`. */
  function But<T>(xs: seq<T>, i: nat): (r: seq<T>)
    requires i < |xs|
    ensures |r| == |xs| - 1
  {
    xs[..i] + xs[i + 1..]
  }

  lemma SumBut<T>(f: T -> nat, xs: seq<T>, i: nat)
    requires i < |xs|
    ensures SumBy(f, xs) == f(xs[i]) + SumBy(f, But(xs, i))
    ensures multiset(xs) == multiset{xs[i]} + multiset(But(xs, i))
  {
    SumConcat(f, xs[..i], xs[i + 1..]);
    SumConcat(f, xs[..i], xs[i..]);
    SumFirst(f, xs[i..]);
    assert xs == xs[..i] + xs[i..] == xs[..i] + [xs[i]] + xs[i + 1..];
  }

  lemma {:induction false} SumAnyOrder<T>(f: T -> nat, a: seq<T>, b: seq<T>)
    requires multiset(a) == multiset(b)
    ensures SumBy(f, a) == SumBy(f, b)
    decreases |a|
  {
    hide SumBy, But;
    if a == [] {
      assert |b| == |multiset(b)| == |multiset(a)|;
    } else {
      assert a[0] in multiset(b);
      var i :| 0 <= i < |b| && b[i] == a[0];
      SumBut(f, a, 0);
      SumBut(f, b, i);
      assert multiset(But(a, 0)) == multiset(a) - multiset{a[0]};
      SumAnyOrder(f, But(a, 0), But(b, i));
    }
  }

  lemma {:induction false} SumNothing<T>(f: T -> nat, xs: seq<T>)
    requires forall x | x in xs :: f(x) == 0
    ensures SumBy(f, xs) == 0
  {
    if xs != [] {
      SumNothing(f, xs[..|xs| - 1]);
    }
  }
}
