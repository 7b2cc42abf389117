/** The verifier of the weighted inner product argument. It never folds the
    generators; its final terms add up to the folded combination all the same. */
module WipVerifier {
  import opened Scalars
  import opened Sums
  import opened VecOps
  import opened Transcripts
  import opened WipArgument
  import opened Indexing
  import opened IndexedProducts
  import opened WipProver
  import opened WipOpening

  lemma ScaledBySections(positions: seq<seq<nat>>, inner0: seq<Scalar>, inner1: seq<Scalar>, inner2: seq<Scalar>,
                         s0: Scalar, s1: Scalar)
    requires |inner0| == |inner1| == |inner2|
    requires forall j, i | 0 <= j < |positions| && 0 <= i < |positions[j]| :: positions[j][i] < |inner0|
    requires forall j, i | 0 <= j < |positions| && 0 <= i < |positions[j]| ::
               && (0 <= j < |positions| / 2 ==> inner1[positions[j][i]] == Mul(inner0[positions[j][i]], s0))
               && (!(0 <= j < |positions| / 2) ==> inner1[positions[j][i]] == inner0[positions[j][i]])
    requires forall j, i | 0 <= j < |positions| && 0 <= i < |positions[j]| ::
               && (|positions| / 2 <= j < |positions| ==> inner2[positions[j][i]] == Mul(inner1[positions[j][i]], s1))
               && (!(|positions| / 2 <= j < |positions|) ==> inner2[positions[j][i]] == inner1[positions[j][i]])
    ensures Scaled(positions, inner0, inner2, s0, s1)
  {
    hide Mul;
  }

  lemma RepresentsInBounds(x: IndexedScalars, base: seq<Point>, folded: seq<Point>)
    requires Represents(x.inner, x.positions, base, folded)
    ensures Distinct(x.positions) && x.InBounds()
  {
    hide Cong, At;
    PartitionDistinct(x.positions, |base|);
  }

  /** Multiplies the scalars of both halves of the groups. */
  method ScaleHalves(x: IndexedScalars, s0: Scalar, s1: Scalar, ghost base: seq<Point>, ghost folded: seq<Point>,
                     ghost factors: seq<(Scalar, Scalar)>)
    requires Represents(x.inner, x.positions, base, folded) && (|folded| == 1 || |folded| % 2 == 0)
    requires Explicit(x.inner, x.positions, |base|, factors)
    modifies x`inner
    ensures |x.inner| == |old(x.inner)|
    ensures Represents(x.inner, MergedPositions(x.positions), base, FoldStep(folded, s0, s1))
    ensures Explicit(x.inner, MergedPositions(x.positions), |base|, factors + [(s0, s1)])
  {
    hide Reduce, Mul, Scaled, FoldStep, MergedPositions, Explicit, Partition, Cong, At;
    RepresentsInBounds(x, base, folded);
    ghost var inner := x.inner;
    x.Next(0, s0);
    ghost var half := x.inner;
    x.Next(1, s1);
    ScaledBySections(x.positions, inner, half, x.inner, s0, s1);
    RoundRefinesFolding(x.positions, inner, x.inner, s0, s1, base, folded);
    ExplicitRound(x.positions, inner, x.inner, s0, s1, |base|, factors);
  }

  /** One round of the verifier: the index structures advance by one folding,
      and the scaled L and R points join the terms. */
  method NextPairs(gBold: IndexedScalars, hBold: IndexedScalars, pTerms: Terms, l: Point, r: Point,
                   ynInv: Scalar, transcript: Transcript, ghost gens: Generators, ghost st: Folding,
                   ghost gFactors: seq<(Scalar, Scalar)>, ghost hFactors: seq<(Scalar, Scalar)>)
    returns (pTerms': Terms)
    requires gBold != hBold && ChallengesInvertible(transcript.oracle)
    requires PowerOfTwo(|st.hs|) && |st.hs| == |st.gs|
    requires Represents(gBold.inner, gBold.positions, gens.hBold, st.hs)
    requires Represents(hBold.inner, hBold.positions, gens.gBold, st.gs)
    requires Explicit(gBold.inner, gBold.positions, |gens.hBold|, gFactors)
    requires Explicit(hBold.inner, hBold.positions, |gens.gBold|, hFactors)
    modifies gBold, hBold, transcript
    ensures transcript.log == Synced(old(transcript.log), l, r)
    ensures var p := transcript.oracle(transcript.log);
            && Invertible(p)
            && Represents(gBold.inner, gBold.positions, gens.hBold, FoldStep(st.hs, Inverse(p), Mul(p, ynInv)))
            && Represents(hBold.inner, hBold.positions, gens.gBold, FoldStep(st.gs, p, Inverse(p)))
            && Explicit(gBold.inner, gBold.positions, |gens.hBold|, gFactors + [(Inverse(p), Mul(p, ynInv))])
            && Explicit(hBold.inner, hBold.positions, |gens.gBold|, hFactors + [(p, Inverse(p))])
            && pTerms' == pTerms + [(Square(p), l), (Square(Inverse(p)), r)]
            && Total(pTerms') == Total(pTerms) + Square(p) * l + Square(Inverse(p)) * r
    ensures |gBold.inner| == |old(gBold.inner)| && |hBold.inner| == |old(hBold.inner)|
  {
    hide Reduce, Mul, Represents, FoldStep, MergedPositions, Explicit;
    HalfOfPowerOfTwo(|st.hs|);
    var p := SyncPoints(l, r, transcript);
    var pInv := Inverse(p);
    ScaleHalves(gBold, pInv, Mul(p, ynInv), gens.hBold, st.hs, gFactors);
    ScaleHalves(hBold, p, pInv, gens.gBold, st.gs, hFactors);
    gBold.Merge();
    hBold.Merge();
    TotalSnoc(pTerms, Square(p), l);
    TotalSnoc(pTerms + [(Square(p), l)], Square(pInv), r);
    pTerms' := pTerms + [(Square(p), l)];
    pTerms' := pTerms' + [(Square(pInv), r)];
  }

  // ---------- what the rounds leave

  /** The factors that round `k` applies to the scalars of the `h` generators. */
  function HFactors(y: Scalar, n: nat, k: nat, p: Scalar): (Scalar, Scalar)
    requires n > 0 && Invertible(y) && Invertible(p)
  {
    PowerInvertible(y, Half(Folds(n, k)));
    (Inverse(p), Mul(p, Inverse(Power(y, Half(Folds(n, k))))))
  }

  /** Round `k`: the challenge is drawn from the log up to its points, which join the terms. */
  ghost predicate Replayed(y: Scalar, n: nat, oracle: Oracle, start: Log, log: Log, l: Point, r: Point, k: nat,
                           hFactors: (Scalar, Scalar), gFactors: (Scalar, Scalar), lTerm: (Scalar, Point), rTerm: (Scalar, Point))
    requires n > 0 && Invertible(y)
  {
    |start| + 3 * k + 3 <= |log| &&
    var p := oracle(log[..|start| + 3 * k + 3]);
    Invertible(p) && hFactors == HFactors(y, n, k, p) && gFactors == (p, Inverse(p)) &&
    lTerm == (Square(p), l) && rTerm == (Square(Inverse(p)), r)
  }

  ghost predicate AllReplayed(y: Scalar, n: nat, oracle: Oracle, start: Log, log: Log, aHat: Point, ls: seq<Point>, rs: seq<Point>,
                              hFactors: seq<(Scalar, Scalar)>, gFactors: seq<(Scalar, Scalar)>, terms: Terms)
    requires n > 0 && Invertible(y)
  {
    && |ls| == |rs| == |hFactors| == |gFactors| && |terms| == 1 + 2 * |ls| && terms[0] == (1, aHat)
    && forall k | 0 <= k < |ls| ::
         Replayed(y, n, oracle, start, log, ls[k], rs[k], k, hFactors[k], gFactors[k], terms[1 + 2 * k], terms[2 + 2 * k])
  }

  lemma ReplayedStart(y: Scalar, n: nat, oracle: Oracle, start: Log, aHat: Point)
    requires n > 0 && Invertible(y)
    ensures AllReplayed(y, n, oracle, start, start, aHat, [], [], [], [], [(1, aHat)])
  {
  }

  lemma ReplayedNext(y: Scalar, n: nat, oracle: Oracle, start: Log, log: Log, aHat: Point, ls: seq<Point>, rs: seq<Point>,
                     hFactors: seq<(Scalar, Scalar)>, gFactors: seq<(Scalar, Scalar)>, terms: Terms, l: Point, r: Point)
    requires n > 0 && Invertible(y) && |log| == |start| + 3 * |ls|
    requires AllReplayed(y, n, oracle, start, log, aHat, ls, rs, hFactors, gFactors, terms)
    requires Invertible(oracle(Synced(log, l, r)))
    ensures var next := Synced(log, l, r);
            var p := oracle(next);
            AllReplayed(y, n, oracle, start, next, aHat, ls + [l], rs + [r],
                        hFactors + [HFactors(y, n, |ls|, p)], gFactors + [(p, Inverse(p))],
                        terms + [(Square(p), l), (Square(Inverse(p)), r)])
  {
    hide HFactors, Invertible, Square, Inverse;
    var next := Synced(log, l, r);
    var p := oracle(next);
    var hs, gs := hFactors + [HFactors(y, n, |ls|, p)], gFactors + [(p, Inverse(p))];
    var ts := terms + [(Square(p), l), (Square(Inverse(p)), r)];
    forall k | 0 <= k <= |ls|
      ensures Replayed(y, n, oracle, start, next, (ls + [l])[k], (rs + [r])[k], k, hs[k], gs[k], ts[1 + 2 * k], ts[2 + 2 * k]) {
      if k < |ls| {
        assert next[..|start| + 3 * k + 3] == log[..|start| + 3 * k + 3];
      } else {
        assert next[..|start| + 3 * k + 3] == next;
      }
    }
  }

  // ---------- the final terms

  lemma {:induction false} TotalScaled(terms: Terms, s: Scalar, scaled: Terms)
    requires |scaled| == |terms|
    requires forall i | 0 <= i < |terms| :: scaled[i] == (Mul(terms[i].0, s), terms[i].1)
    ensures Cong(Total(scaled), s * Total(terms))
  {
    hide Reduce;
    if |terms| > 0 {
      var n := |terms| - 1;
      TotalScaled(terms[..n], s, scaled[..n]);
      var c: Scalar, p: Point := terms[n].0, terms[n].1;
      ScaledProduct(c, s, p);
      ScaleStep(Total(scaled[..n]), Total(terms[..n]), Mul(c, s) * p, c * p, s);
    }
  }

  method ScaleTerms(terms: Terms, s: Scalar) returns (scaled: Terms)
    ensures |scaled| == |terms| && forall k | 0 <= k < |terms| :: scaled[k] == (Mul(terms[k].0, s), terms[k].1)
    ensures Cong(Total(scaled), s * Total(terms))
  {
    hide Reduce, Mul;
    scaled := terms;
    for i := 0 to |terms|
      invariant |scaled| == |terms|
      invariant forall k | 0 <= k < i :: scaled[k] == (Mul(terms[k].0, s), terms[k].1)
      invariant forall k | i <= k < |terms| :: scaled[k] == terms[k]
    {
      scaled := scaled[i := (Mul(scaled[i].0, s), scaled[i].1)];
    }
    TotalScaled(terms, s, scaled);
  }

  lemma GeneratorPushed(c: Scalar, answer: Scalar, e: Scalar, p: Point)
    ensures Cong(Mul(Mul(c, answer), e) * p, (answer * e) * (c * p))
  {
    hide Reduce;
    Reduced(c * answer);
    CongTimes(e, Mul(c, answer), c * answer);
    Reduced(Mul(c, answer) * e);
    CongTimes(p, Mul(Mul(c, answer), e), (c * answer) * e);
    GeneratorProduct(c, answer, e, p);
  }

  lemma GeneratorProduct(c: int, answer: int, e: int, p: int)
    ensures ((c * answer) * e) * p == (answer * e) * (c * p)
  {
    assert (c * answer) * e == (answer * e) * c;
    assert ((answer * e) * c) * p == (answer * e) * (c * p);
  }

  lemma NothingPushed(t: int, s: int)
    ensures Cong(t, t + s * Dot([], []))
  {
    hide Reduce;
    EmptyDot();
  }

  lemma PushedOne(terms: Terms, inner: seq<Scalar>, answer: Scalar, e: Scalar, base: seq<Point>, i: nat, t: int)
    requires i < |base| <= |inner| && Cong(Total(terms), t + (answer * e) * Dot(inner[..i], base[..i]))
    ensures Cong(Total(terms + [(Mul(Mul(inner[i], answer), e), base[i])]), t + (answer * e) * Dot(inner[..i + 1], base[..i + 1]))
  {
    hide Reduce, Dot, Mul, Cong;
    var d, c: int := Dot(inner[..i], base[..i]), (inner[i] as int) * base[i];
    GeneratorPushed(inner[i], answer, e, base[i]);
    TotalSnoc(terms, Mul(Mul(inner[i], answer), e), base[i]);
    CongAdd(Total(terms), t + (answer * e) * d, Mul(Mul(inner[i], answer), e) * base[i], (answer * e) * c);
    DotStep(inner[..i + 1], base[..i + 1]);
    assert inner[..i + 1][..i] == inner[..i] && base[..i + 1][..i] == base[..i];
    assert (answer * e) * (d + c) == (answer * e) * d + (answer * e) * c;
  }

  /** Pushes one term per base generator. */
  method PushGenerators(terms: Terms, inner: seq<Scalar>, answer: Scalar, e: Scalar, base: seq<Point>) returns (terms': Terms)
    requires |base| <= |inner|
    ensures |terms'| == |terms| + |base| && terms <= terms'
    ensures forall k | 0 <= k < |base| :: terms'[|terms| + k] == (Mul(Mul(inner[k], answer), e), base[k])
    ensures Cong(Total(terms'), Total(terms) + (answer * e) * Dot(inner[..|base|], base))
  {
    hide Reduce, Dot, Mul, Cong, Total;
    terms' := terms;
    assert Cong(Total(terms), Total(terms) + (answer * e) * Dot([], [])) by { NothingPushed(Total(terms), answer * e); }
    for i := 0 to |base|
      invariant |terms'| == |terms| + i && terms <= terms'
      invariant forall k | 0 <= k < i :: terms'[|terms| + k] == (Mul(Mul(inner[k], answer), e), base[k])
      invariant Cong(Total(terms'), Total(terms) + (answer * e) * Dot(inner[..i], base[..i]))
    {
      PushedOne(terms', inner, answer, e, base, i, Total(terms));
      terms' := terms' + [(Mul(Mul(inner[i], answer), e), base[i])];
    }
    assert base[..|base|] == base;
  }

  lemma {:induction false} OnesRepresent(base: seq<Point>)
    requires |base| % 2 == 0
    ensures Represents(seq(|base| + |base| % 2, _ => 1), seq(|base|, i => [i]), base, base)
  {
    hide Reduce;
    var inner: seq<Scalar>, positions: seq<seq<nat>> := seq(|base|, _ => 1), seq(|base|, i => [i]);
    SingletonsPartition(|base|);
    forall j | 0 <= j < |positions| ensures Within(positions[j], |base|) && Cong(base[j], At(positions[j], inner, base)) {
      assert At(positions[j][..0], inner, base) == 0;
      assert At(positions[j], inner, base) == 1 * base[j];
    }
  }

  // ---------- verification

  /** Replays the rounds of a proof on the index structures. */
  method VerifyRounds(gens: Generators, ghost y0: Scalar, stmt: WipStmt, proof: WipProof, transcript: Transcript)
    returns (gInner: seq<Scalar>, hInner: seq<Scalar>, pTerms: Terms,
             ghost gFactors: seq<(Scalar, Scalar)>, ghost hFactors: seq<(Scalar, Scalar)>)
    requires gens.Valid() && stmt.y == Weights(y0, |gens.hBold|)
    requires Invertible(y0) && ChallengesInvertible(transcript.oracle)
    modifies transcript
    ensures |gInner| == |hInner| == |gens.hBold|
    ensures var n, m := |gens.hBold|, Min(|proof.l|, |proof.r|);
            && AllReplayed(y0, n, transcript.oracle, old(transcript.log), transcript.log, stmt.aHat,
                           proof.l[..m], proof.r[..m], gFactors, hFactors, pTerms)
            && |transcript.log| == |old(transcript.log)| + 3 * m
            && forall q | 0 <= q < n :: gInner[q] == ScalarAt(gFactors, n, q) && hInner[q] == ScalarAt(hFactors, n, q)
    ensures var st := ProofRounds(gens, y0, transcript.oracle, old(transcript.log), proof);
            && transcript.log == st.log
            && Total(pTerms) == stmt.aHat + st.lr
            && Cong(Sum(st.hs), Dot(gInner, gens.hBold))
            && Cong(Sum(st.gs), Dot(hInner, gens.gBold))
  {
    hide Reduce, Cong, Mul, Represents, FoldStep, MergedPositions, Power, Weights, Sum, Dot, Round, Rounds, Explicit, AllReplayed, ScalarAt, Folds;
    ghost var oracle, log0 := transcript.oracle, transcript.log;
    RoundsStart(gens, y0, oracle, log0);
    pTerms := [(1, stmt.aHat)];
    TotalSnoc([], 1, stmt.aHat);
    assert [] + pTerms == pTerms;
    EvenSize(gens);
    var gBold := new IndexedScalars.WithCapacity(|gens.hBold|);
    var hBold := new IndexedScalars.WithCapacity(|gens.hBold|);
    OnesRepresent(gens.hBold);
    OnesRepresent(gens.gBold);
    ExplicitStart(|gens.hBold|);
    gFactors, hFactors := [], [];
    ReplayedStart(y0, |gens.hBold|, oracle, log0, stmt.aHat);
    assert proof.l[..0] == [] && proof.r[..0] == [];
    var n := Min(|proof.l|, |proof.r|);
    for i := 0 to n
      invariant fresh(gBold) && fresh(hBold) && gBold != hBold
      invariant |gBold.inner| == |hBold.inner| == |gens.hBold|
      invariant |gFactors| == i && |transcript.log| == |log0| + 3 * i
      invariant Explicit(gBold.inner, gBold.positions, |gens.hBold|, gFactors)
      invariant Explicit(hBold.inner, hBold.positions, |gens.hBold|, hFactors)
      invariant AllReplayed(y0, |gens.hBold|, oracle, log0, transcript.log, stmt.aHat, proof.l[..i], proof.r[..i], gFactors, hFactors, pTerms)
      invariant var st := Rounds(gens, y0, oracle, log0, proof.l[..i], proof.r[..i]);
                && transcript.log == st.log && Total(pTerms) == stmt.aHat + st.lr
                && |st.hs| <= |gens.hBold|
                && Represents(gBold.inner, gBold.positions, gens.hBold, st.hs)
                && Represents(hBold.inner, hBold.positions, gens.gBold, st.gs)
    {
      ghost var st := Rounds(gens, y0, oracle, log0, proof.l[..i], proof.r[..i]);
      SameLength(gBold, gens.hBold, st.hs);
      HalfOfPowerOfTwo(|st.hs|);
      var nHat := (|gBold.positions| + |gBold.positions| % 2) / 2;
      WeightAt(y0, |gens.hBold|, nHat - 1);
      PowerInvertible(y0, nHat);
      var ynInv := Inverse(stmt.y[nHat - 1]);
      ReplayedLength(gBold, |gens.hBold|, gFactors);
      ghost var log, terms := transcript.log, pTerms;
      pTerms := NextPairs(gBold, hBold, pTerms, proof.l[i], proof.r[i], ynInv, transcript, gens, st, gFactors, hFactors);
      ReplayedNext(y0, |gens.hBold|, oracle, log0, log, stmt.aHat, proof.l[..i], proof.r[..i], gFactors, hFactors, terms, proof.l[i], proof.r[i]);
      ghost var p := oracle(transcript.log);
      gFactors, hFactors := gFactors + [HFactors(y0, |gens.hBold|, i, p)], hFactors + [(p, Inverse(p))];
      RoundsSnoc(gens, y0, oracle, log0, proof.l[..i], proof.r[..i], proof.l[i], proof.r[i]);
      RoundParts(st, y0, oracle, proof.l[i], proof.r[i], ynInv);
      assert proof.l[..i + 1] == proof.l[..i] + [proof.l[i]] && proof.r[..i + 1] == proof.r[..i] + [proof.r[i]];
    }
    gInner, hInner := gBold.inner, hBold.inner;
    ExplicitScalars(gInner, gBold.positions, |gens.hBold|, gFactors);
    ExplicitScalars(hInner, hBold.positions, |gens.hBold|, hFactors);
    ghost var st := ProofRounds(gens, y0, oracle, log0, proof);
    RepresentedSum(gBold.inner, gBold.positions, gens.hBold, st.hs);
    RepresentedSum(hBold.inner, hBold.positions, gens.gBold, st.gs);
    assert gInner[..|gens.hBold|] == gInner && hInner[..|gens.gBold|] == hInner;
  }

  lemma ReplayedLength(x: IndexedScalars, n: nat, factors: seq<(Scalar, Scalar)>)
    requires Explicit(x.inner, x.positions, n, factors)
    ensures |x.positions| == Folds(n, |factors|)
  {
  }

  lemma ExplicitScalars(inner: seq<Scalar>, positions: seq<seq<nat>>, n: nat, factors: seq<(Scalar, Scalar)>)
    requires Explicit(inner, positions, n, factors)
    ensures n <= |inner| && forall q | 0 <= q < n :: inner[q] == ScalarAt(factors, n, q)
  {
  }

  lemma RoundsStart(gens: Generators, y: Scalar, oracle: Oracle, log: Log)
    requires gens.Valid() && Invertible(y) && ChallengesInvertible(oracle)
    ensures Rounds(gens, y, oracle, log, [], []) == Folding(log, gens.hBold, gens.gBold, 0)
  {
  }

  lemma RoundParts(st: Folding, y: Scalar, oracle: Oracle, l: Point, r: Point, ynInv: Scalar)
    requires PowerOfTwo(|st.hs|) && |st.hs| == |st.gs| && Invertible(y) && ChallengesInvertible(oracle)
    requires Invertible(Power(y, Half(|st.hs|))) && ynInv == Inverse(Power(y, Half(|st.hs|)))
    ensures var p := oracle(Synced(st.log, l, r));
            Round(st, y, oracle, l, r)
            == Folding(Synced(st.log, l, r), FoldStep(st.hs, Inverse(p), Mul(p, ynInv)), FoldStep(st.gs, p, Inverse(p)),
                       st.lr + Square(p) * l + Square(Inverse(p)) * r)
  {
    hide Reduce, FoldStep;
  }

  lemma EvenSize(gens: Generators)
    requires gens.Valid()
    ensures |gens.hBold| % 2 == 0
  {
  }

  lemma SameLength(x: IndexedScalars, base: seq<Point>, folded: seq<Point>)
    requires Represents(x.inner, x.positions, base, folded)
    ensures |x.positions| == |folded|
  {
  }

  /** The terms queued for a proof, one by one: the statement and the points of the rounds,
      scaled with minus the square of the last challenge, one term for every base generator,
      and the four that close the equation. */
  ghost predicate Queued(gens: Generators, y: Scalar, start: Log, log: Log, oracle: Oracle, aHat: Point, proof: WipProof, terms: Terms)
    requires |gens.hBold| > 0 && |gens.gBold| == |gens.hBold| && Invertible(y)
  {
    var n, m, e := |gens.hBold|, Min(|proof.l|, |proof.r|), oracle(log);
    exists hFactors: seq<(Scalar, Scalar)>, gFactors: seq<(Scalar, Scalar)>, pTerms: Terms ::
      && AllReplayed(y, n, oracle, start, log, aHat, proof.l[..m], proof.r[..m], hFactors, gFactors, pTerms)
      && |terms| == 1 + 2 * m + 2 * n + 4
      && (forall k | 0 <= k < 1 + 2 * m :: terms[k] == (Mul(pTerms[k].0, Neg(Square(e))), pTerms[k].1))
      && (forall q | 0 <= q < n :: terms[1 + 2 * m + q] == (Mul(Mul(ScalarAt(hFactors, n, q), proof.rRev), e), gens.hBold[q]))
      && (forall q | 0 <= q < n :: terms[1 + 2 * m + n + q] == (Mul(Mul(ScalarAt(gFactors, n, q), proof.sRev), e), gens.gBold[q]))
      && terms[1 + 2 * m + 2 * n..] == [(Neg(e), proof.a), (Mul(Mul(proof.rRev, y), proof.sRev), gens.h), (proof.deltaRev, gens.g), (Neg(1), proof.b)]
  }

  lemma AllQueued(gens: Generators, y: Scalar, start: Log, before: Log, log: Log, oracle: Oracle, aHat: Point, proof: WipProof, terms: Terms,
                  hFactors: seq<(Scalar, Scalar)>, gFactors: seq<(Scalar, Scalar)>, pTerms: Terms,
                  hInner: seq<Scalar>, gInner: seq<Scalar>, t0: Terms, t1: Terms, t2: Terms)
    requires |gens.hBold| > 0 && |gens.gBold| == |gens.hBold| && Invertible(y)
    requires var n, m, e := |gens.hBold|, Min(|proof.l|, |proof.r|), oracle(log);
             && AllReplayed(y, n, oracle, start, before, aHat, proof.l[..m], proof.r[..m], hFactors, gFactors, pTerms)
             && |before| == |start| + 3 * m && before <= log
             && |hInner| == |gInner| == n
             && (forall q | 0 <= q < n :: hInner[q] == ScalarAt(hFactors, n, q) && gInner[q] == ScalarAt(gFactors, n, q))
             && |t0| == |pTerms| && (forall k | 0 <= k < |pTerms| :: t0[k] == (Mul(pTerms[k].0, Neg(Square(e))), pTerms[k].1))
             && |t1| == |t0| + n && t0 <= t1 && (forall q | 0 <= q < n :: t1[|t0| + q] == (Mul(Mul(hInner[q], proof.rRev), e), gens.hBold[q]))
             && |t2| == |t1| + n && t1 <= t2 && (forall q | 0 <= q < n :: t2[|t1| + q] == (Mul(Mul(gInner[q], proof.sRev), e), gens.gBold[q]))
             && terms == t2 + [(Neg(e), proof.a), (Mul(Mul(proof.rRev, y), proof.sRev), gens.h), (proof.deltaRev, gens.g), (Neg(1), proof.b)]
    ensures Queued(gens, y, start, log, oracle, aHat, proof, terms)
  {
    hide Mul, Neg, Square, ScalarAt, Invertible, Replayed;
    var n, m, e := |gens.hBold|, Min(|proof.l|, |proof.r|), oracle(log);
    LongerLog(y, n, oracle, start, before, log, aHat, proof.l[..m], proof.r[..m], hFactors, gFactors, pTerms);
    assert t0 <= terms && t1 <= terms && t2 <= terms;
    hide AllReplayed;
    forall k | 0 <= k < 1 + 2 * m ensures terms[k] == (Mul(pTerms[k].0, Neg(Square(e))), pTerms[k].1) {
      assert terms[k] == t0[k];
    }
    forall q | 0 <= q < n ensures terms[1 + 2 * m + q] == (Mul(Mul(ScalarAt(hFactors, n, q), proof.rRev), e), gens.hBold[q]) {
      assert terms[1 + 2 * m + q] == t1[|t0| + q];
    }
    forall q | 0 <= q < n ensures terms[1 + 2 * m + n + q] == (Mul(Mul(ScalarAt(gFactors, n, q), proof.sRev), e), gens.gBold[q]) {
      assert terms[1 + 2 * m + n + q] == t2[|t1| + q];
    }
  }

  lemma LongerLog(y: Scalar, n: nat, oracle: Oracle, start: Log, before: Log, log: Log, aHat: Point, ls: seq<Point>, rs: seq<Point>,
                  hFactors: seq<(Scalar, Scalar)>, gFactors: seq<(Scalar, Scalar)>, terms: Terms)
    requires n > 0 && Invertible(y) && before <= log && |before| == |start| + 3 * |ls|
    requires AllReplayed(y, n, oracle, start, before, aHat, ls, rs, hFactors, gFactors, terms)
    ensures AllReplayed(y, n, oracle, start, log, aHat, ls, rs, hFactors, gFactors, terms)
  {
    hide HFactors, Invertible, Square, Inverse;
    forall k | 0 <= k < |ls|
      ensures Replayed(y, n, oracle, start, log, ls[k], rs[k], k, hFactors[k], gFactors[k], terms[1 + 2 * k], terms[2 + 2 * k]) {
      assert before[..|start| + 3 * k + 3] == log[..|start| + 3 * k + 3];
    }
  }

  /** Verifies a proof: the terms queued for the identity check, which are spelled out,
      add up to the combination of the folded form. */
  method Verify(gens: Generators, ghost y0: Scalar, stmt: WipStmt, proof: WipProof, transcript: Transcript) returns (terms: Terms)
    requires gens.Valid() && stmt.y == Weights(y0, |gens.hBold|)
    requires Invertible(y0) && ChallengesInvertible(transcript.oracle)
    modifies transcript
    ensures ProofLogged(transcript.log, old(transcript.log), proof)
    ensures Queued(gens, y0, old(transcript.log), transcript.log, transcript.oracle, stmt.aHat, proof, terms)
    ensures Cong(Total(terms), Combination(gens, y0, transcript.oracle, old(transcript.log), stmt.aHat, proof))
  {
    hide Reduce, Cong, Mul, Neg, Square, Weights, Sum, Dot, Rounds, FinalSum, ProofLogged, AllReplayed, ScalarAt, Queued;
    ghost var oracle, log0 := transcript.oracle, transcript.log;
    var gInner, hInner, pTerms;
    ghost var gFactors, hFactors;
    gInner, hInner, pTerms, gFactors, hFactors := VerifyRounds(gens, y0, stmt, proof, transcript);
    ghost var st, before := ProofRounds(gens, y0, oracle, log0, proof), transcript.log;
    var e := SyncPoints(proof.a, proof.b, transcript);
    ProofIsLogged(gens, y0, oracle, log0, proof);
    FirstWeight(y0, |gens.hBold|);
    var t0 := ScaleTerms(pTerms, Neg(Square(e)));
    var t1 := PushGenerators(t0, gInner, proof.rRev, e, gens.hBold);
    var t2 := PushGenerators(t1, hInner, proof.sRev, e, gens.gBold);
    var t3 := t2 + [(Neg(e), proof.a)];
    var t4 := t3 + [(Mul(Mul(proof.rRev, stmt.y[0]), proof.sRev), gens.h)];
    var t5 := t4 + [(proof.deltaRev, gens.g)];
    terms := t5 + [(Neg(1), proof.b)];
    AllQueued(gens, y0, log0, before, transcript.log, oracle, stmt.aHat, proof, terms, gFactors, hFactors, pTerms,
              gInner, hInner, t0, t1, t2);
    TotalSnoc(t2, Neg(e), proof.a);
    TotalSnoc(t3, Mul(Mul(proof.rRev, y0), proof.sRev), gens.h);
    TotalSnoc(t4, proof.deltaRev, gens.g);
    TotalSnoc(t5, Neg(1), proof.b);
    assert gInner[..|gens.hBold|] == gInner && hInner[..|gens.gBold|] == hInner;
    QueuedTerms(gens, y0, e, proof, stmt.aHat + st.lr, Dot(gInner, gens.hBold), Dot(hInner, gens.gBold),
                Sum(st.hs), Sum(st.gs), Total(t0), Total(t1), Total(t2));
  }

  lemma NegCong(a: Scalar)
    ensures Cong(Neg(a), 0 - a)
  {
    hide Reduce;
    Reduced(0 - a);
  }

  lemma QueuedTerms(gens: Generators, y: Scalar, e: Scalar, proof: WipProof, p: int, dh: int, dg: int, h: int, g: int,
                    t0: int, t1: int, t2: int)
    requires Cong(t0, Neg(Square(e)) * p)
    requires Cong(t1, t0 + (proof.rRev * e) * dh) && Cong(t2, t1 + (proof.sRev * e) * dg)
    requires Cong(h, dh) && Cong(g, dg)
    ensures Cong(t2 + Neg(e) * proof.a + Mul(Mul(proof.rRev, y), proof.sRev) * gens.h + proof.deltaRev * gens.g + Neg(1) * proof.b,
                 FinalSum(gens, y, e, p, h, g, proof))
  {
    var m: Scalar := Mul(Mul(proof.rRev, y), proof.sRev);
    ReducedProduct(proof.rRev, y, proof.sRev);
    assert Cong(Neg(Square(e)), -(e * e)) by {
      hide Reduce;
      NegCong(Square(e));
      Reduced(e * e);
      CongNeg(Square(e), e * e);
      assert 0 - Square(e) == -(Square(e) as int);
    }
    NegCong(e);
    NegCong(1);
    hide Reduce, Mul, Neg, Square;
    CongTimes(p, Neg(Square(e)), -(e * e));
    CongTimes(proof.rRev * e, h, dh);
    CongTimes(proof.sRev * e, g, dg);
    CongTimes(proof.a, Neg(e), 0 - e);
    CongTimes(gens.h, m, proof.rRev * y * proof.sRev);
    CongTimes(proof.b, Neg(1), -1);
    QueuedSum(t0, t1, t2, Neg(Square(e)) * p, -(e * e) * p, (proof.rRev * e) * dh, (proof.rRev * e) * h,
              (proof.sRev * e) * dg, (proof.sRev * e) * g, Neg(e) * proof.a, (0 - e) * proof.a,
              m * gens.h, (proof.rRev * y * proof.sRev) * gens.h, proof.deltaRev * gens.g, Neg(1) * proof.b, -1 * proof.b);
    assert (0 - e) * proof.a == 0 - e * proof.a;
  }

  lemma QueuedSum(t0: int, t1: int, t2: int, p: int, p': int, h: int, h': int, g: int, g': int, a: int, a': int,
                  m: int, m': int, d: int, b: int, b': int)
    requires Cong(t0, p) && Cong(t1, t0 + h) && Cong(t2, t1 + g)
    requires Cong(p, p') && Cong(h', h) && Cong(g', g) && Cong(a, a') && Cong(m, m') && Cong(b, b')
    ensures Cong(t2 + a + m + d + b, p' + h' + g' + a' + m' + d + b')
  {
    hide Reduce;
    CongAdd(t0, p', h, h');
    CongAdd(t1, p' + h', g, g');
    CongAdd4(t2, p' + h' + g', a, a', m, m', b, b');
    CongAdd(t2 + a + m + b, p' + h' + g' + a' + m' + b', d, d);
  }
}
