/** The prover of the weighted inner product argument. */
module WipProver {
  import opened Scalars
  import opened Sums
  import opened VecOps
  import opened Transcripts
  import opened WipArgument
  import opened WipFolding
  import opened WipOpening

  /** The random scalars drawn by the prover: two per round, four at the end. */
  datatype Nonces = Nonces(dL: nat -> Scalar, dR: nat -> Scalar, r: Scalar, s: Scalar, delta: Scalar, n: Scalar)

  datatype WipStmt = WipStmt(aHat: Point, y: seq<Scalar>)

  method NewStmt(aHat: Point, y: Scalar, size: nat) returns (stmt: WipStmt)
    requires size >= 1
    ensures stmt == WipStmt(aHat, Weights(y, size))
  {
    hide Reduce;
    var yVec := seq(size, _ => 0);
    yVec := yVec[0 := y];
    PowerOne(y);
    for i := 1 to size
      invariant |yVec| == size
      invariant forall k | 0 <= k < i :: yVec[k] == Power(y, k + 1)
    {
      yVec := yVec[i := Mul(yVec[i - 1], y)];
    }
    assert yVec == Weights(y, size);
    stmt := WipStmt(aHat, yVec);
  }

  method FoldPoints(left: seq<Point>, right: seq<Point>, s0: Scalar, s1: Scalar) returns (folded: seq<Point>)
    requires |left| == |right| >= 1
    ensures folded == FoldStep(left + right, s0, s1) && |folded| == |left|
    ensures forall i | 0 <= i < |left| :: folded[i] == Reduce(s0 * left[i] + s1 * right[i])
  {
    hide Reduce;
    folded := [];
    for i := 0 to |left|
      invariant |folded| == i
      invariant forall k | 0 <= k < i :: folded[k] == Reduce(s0 * left[k] + s1 * right[k])
    {
      TotalOfPair(s0, left[i], s1, right[i]);
      folded := folded + [MultiExp([(s0, left[i]), (s1, right[i])])];
    }
    assert folded == FoldStep(left + right, s0, s1);
  }

  lemma TotalOfPair(s0: Scalar, p0: Point, s1: Scalar, p1: Point)
    ensures Total([(s0, p0), (s1, p1)]) == s0 * p0 + s1 * p1
  {
    TotalSnoc([], s0, p0);
    assert [] + [(s0, p0)] == [(s0, p0)];
    TotalSnoc([(s0, p0)], s1, p1);
    assert [(s0, p0)] + [(s1, p1)] == [(s0, p0), (s1, p1)];
  }

  /** The next generation of generators. The first pair of vectors is the one
      the source passes its `h` generators in. */
  method NextGens(g1: seq<Point>, g2: seq<Point>, h1: seq<Point>, h2: seq<Point>, l: Point, r: Point,
                  ynInv: Scalar, transcript: Transcript) returns (p: Scalar, gs: seq<Point>, hs: seq<Point>)
    requires |g1| == |g2| == |h1| == |h2| >= 1
    requires ChallengesInvertible(transcript.oracle)
    modifies transcript
    ensures transcript.log == Synced(old(transcript.log), l, r)
    ensures p == transcript.oracle(transcript.log) && Invertible(p)
    ensures gs == FoldStep(g1 + g2, Inverse(p), Mul(p, ynInv)) && |gs| == |g1|
    ensures hs == FoldStep(h1 + h2, p, Inverse(p)) && |hs| == |h1|
    ensures forall i | 0 <= i < |g1| ::
              && gs[i] == Reduce(Inverse(p) * g1[i] + Mul(p, ynInv) * g2[i])
              && hs[i] == Reduce(p * h1[i] + Inverse(p) * h2[i])
  {
    hide Reduce, FoldStep, Mul;
    p := SyncPoints(l, r, transcript);
    var pInv := Inverse(p);
    gs := FoldPoints(g1, g2, pInv, Mul(p, ynInv));
    hs := FoldPoints(h1, h2, p, pInv);
  }

  // ---------- the rounds

  lemma RoundsSnoc(gens: Generators, y: Scalar, oracle: Oracle, log: Log, ls: seq<Point>, rs: seq<Point>, l: Point, r: Point)
    requires gens.Valid() && |ls| == |rs| && Invertible(y) && ChallengesInvertible(oracle)
    ensures Rounds(gens, y, oracle, log, ls + [l], rs + [r]) == Round(Rounds(gens, y, oracle, log, ls, rs), y, oracle, l, r)
  {
    hide Round;
    assert (ls + [l])[..|ls|] == ls && (rs + [r])[..|rs|] == rs;
  }

  lemma RoundOfHalves(st: Folding, y: Scalar, oracle: Oracle, x: Halves, l: Point, r: Point)
    requires x.Valid() && PowerOfTwo(|st.hs|) && Invertible(y) && ChallengesInvertible(oracle)
    requires st.hs == x.h1 + x.h2 && st.gs == x.g1 + x.g2
    requires x.p == oracle(Synced(st.log, l, r)) && x.pInv == Inverse(x.p)
    requires Invertible(x.yn) && x.yn == Power(y, |x.h1|) && x.ynInv == Inverse(x.yn)
    ensures Round(st, y, oracle, l, r)
         == Folding(Synced(st.log, l, r), x.NextH(), x.NextG(), st.lr + Square(x.p) * l + Square(x.pInv) * r)
  {
    hide Reduce, FoldStep;
    assert Half(|st.hs|) == |x.h1|;
  }

  lemma WipOfWeights(u: seq<Scalar>, v: seq<Scalar>, y: Scalar, m: nat, n: nat)
    requires |u| == |v| <= m <= n
    ensures Wip(u, v, Weights(y, m)) == Wip(u, v, Weights(y, n))
  {
    hide Reduce;
    assert Weights(y, m)[..|u|] == Weights(y, n)[..|u|];
  }

  /** What the prover maintains between rounds. */
  ghost predicate Folded(gens: Generators, y: Scalar, st: Folding, committed: int,
                         hs: seq<Point>, gs: seq<Point>, a: seq<Scalar>, b: seq<Scalar>, alpha: Scalar, log: Log) {
    && |hs| == |gs| == |a| == |b| <= |gens.hBold|
    && PowerOfTwo(|hs|)
    && st.hs == hs && st.gs == gs && st.log == log
    && Cong(Commitment(gens, y, hs, gs, a, b, alpha), committed + st.lr)
  }

  lemma RoundKeepsFolded(gens: Generators, y: Scalar, oracle: Oracle, st: Folding, committed: int, x: Halves,
                         alpha: Scalar, dL: Scalar, dR: Scalar, l: Point, r: Point)
    requires x.Valid() && Invertible(y) && ChallengesInvertible(oracle)
    requires Folded(gens, y, st, committed, x.h1 + x.h2, x.g1 + x.g2, x.a1 + x.a2, x.b1 + x.b2, alpha, st.log)
    requires x.p == oracle(Synced(st.log, l, r)) && x.pInv == Inverse(x.p)
    requires Invertible(x.yn) && x.yn == Power(y, |x.h1|) && x.ynInv == Inverse(x.yn)
    requires var w := Weights(y, |gens.hBold|);
             l == MultiExp(x.LTerms(gens, w, dL)) && r == MultiExp(x.RTerms(gens, w, dR))
    ensures Folded(gens, y, Round(st, y, oracle, l, r), committed, x.NextH(), x.NextG(), x.NextA(), x.NextB(),
                   x.NextAlpha(alpha, dL, dR), Synced(st.log, l, r))
  {
    hide Reduce, Cong, Commitment, Weights, Wip, Scale, MultiExp, Zip, Square, Round, Inverse, Power;
    hide x.NextH, x.NextG, x.NextA, x.NextB, x.NextAlpha;
    RoundOfHalves(st, y, oracle, x, l, r);
    FoldedLengths(x);
    HalfOfPowerOfTwo(|st.hs|);
    WipOfWeights(x.a1, x.b2, y, 2 * |x.a1|, |gens.hBold|);
    WipOfWeights(Scale(x.a2, x.yn), x.b1, y, 2 * |x.a1|, |gens.hBold|);
    RoundKeepsCommitment(gens, y, x, alpha, dL, dR);
    SentPoints(Commitment(gens, y, x.NextH(), x.NextG(), x.NextA(), x.NextB(), x.NextAlpha(alpha, dL, dR)),
               Commitment(gens, y, x.h1 + x.h2, x.g1 + x.g2, x.a1 + x.a2, x.b1 + x.b2, alpha),
               committed + st.lr, Square(x.p) * l, Square(x.pInv) * r);
  }

  lemma SentPoints(after: int, before: int, known: int, l: int, r: int)
    requires Cong(after, before + l + r) && Cong(before, known)
    ensures Cong(after, known + l + r)
  {
    hide Reduce;
    CongAdd(before, known, l + r, l + r);
  }

  /** The commitment the prover starts from. */
  function WitnessCommitment(gens: Generators, y: Scalar, a: seq<Scalar>, b: seq<Scalar>, alpha: Scalar): int
    requires |a| == |b| == |gens.hBold| == |gens.gBold|
  {
    Commitment(gens, y, gens.hBold, gens.gBold, a, b, alpha)
  }

  /** Runs the rounds until the vectors have length one. */
  method ProveRounds(gens: Generators, ghost y0: Scalar, y: seq<Scalar>, aL: seq<Scalar>, aR: seq<Scalar>, alpha0: Scalar,
                     transcript: Transcript, nonces: Nonces)
    returns (lVec: seq<Point>, rVec: seq<Point>, hBold: seq<Point>, gBold: seq<Point>,
             a: seq<Scalar>, b: seq<Scalar>, alpha: Scalar)
    requires gens.Valid() && |aL| == |aR| == |gens.hBold|
    requires y == Weights(y0, |gens.hBold|)
    requires Invertible(y0) && ChallengesInvertible(transcript.oracle)
    modifies transcript
    ensures |lVec| == |rVec| && |hBold| == 1
    ensures Folded(gens, y0, Rounds(gens, y0, transcript.oracle, old(transcript.log), lVec, rVec),
                   WitnessCommitment(gens, y0, aL, aR, alpha0), hBold, gBold, a, b, alpha, transcript.log)
  {
    hide Reduce, Weights, Wip, Scale, AddAll, MultiExp, Zip, Square, Commitment, Round, Inverse, Power, Mul, Add, FoldStep;
    hBold, gBold := gens.hBold, gens.gBold;
    a, b, alpha := aL, aR, alpha0;
    lVec, rVec := [], [];
    ghost var log0, oracle := transcript.log, transcript.oracle;
    ghost var committed := WitnessCommitment(gens, y0, aL, aR, alpha0);
    while |hBold| > 1
      invariant |lVec| == |rVec| && |hBold| >= 1
      invariant Folded(gens, y0, Rounds(gens, y0, oracle, log0, lVec, rVec), committed, hBold, gBold, a, b, alpha, transcript.log)
      decreases |hBold|
    {
      var a1, a2 := Split(a, 0);
      var b1, b2 := Split(b, 0);
      var h1, h2 := Split(hBold, IDENTITY);
      var g1, g2 := Split(gBold, IDENTITY);
      var nHat := |h1|;
      var yn := y[nHat - 1];
      WeightAt(y0, |gens.hBold|, nHat - 1);
      PowerInvertible(y0, nHat);
      var dL, dR := nonces.dL(|lVec|), nonces.dR(|lVec|);
      var cL := Wip(a1, b2, y);
      var cR := Wip(Scale(a2, yn), b1, y);
      var ynInv := Inverse(yn);

      var lTerms := Zip(Scale(a1, ynInv), h2) + Zip(b2, g1) + [(cL, gens.h), (dL, gens.g)];
      var l := MultiExp(lTerms);
      var rTerms := Zip(Scale(a2, yn), h1) + Zip(b1, g2) + [(cR, gens.h), (dR, gens.g)];
      var r := MultiExp(rTerms);
      var p;
      p, hBold, gBold := NextGens(h1, h2, g1, g2, l, r, ynInv, transcript);
      var pInv := Inverse(p);
      ghost var x := Halves(a1, a2, b1, b2, h1, h2, g1, g2, p, pInv, yn, ynInv);
      RoundKeepsFolded(gens, y0, oracle, Rounds(gens, y0, oracle, log0, lVec, rVec), committed, x, alpha, dL, dR, l, r);
      RoundsSnoc(gens, y0, oracle, log0, lVec, rVec, l, r);
      lVec, rVec := lVec + [l], rVec + [r];
      a := AddAll(Scale(a1, p), Scale(a2, Mul(yn, pInv)));
      b := AddAll(Scale(b1, pInv), Scale(b2, p));
      alpha := Add(alpha, Add(Mul(dL, Square(p)), Mul(dR, Square(pInv))));
    }
  }

  lemma WeightAt(y: Scalar, n: nat, i: nat)
    requires i < n
    ensures Weights(y, n)[i] == Power(y, i + 1)
  {
  }

  // ---------- the end

  lemma SingleCommitment(gens: Generators, y: Scalar, h: Point, g: Point, a: Scalar, b: Scalar, alpha: Scalar)
    ensures Commitment(gens, y, [h], [g], [a], [b], alpha) == a * h + b * g + (a * b * y) * gens.h + alpha * gens.g
  {
    hide Reduce;
    PowerOne(y);
    assert Weights(y, 1)[0] == y;
    assert WeightedDot([a], [b], Weights(y, 1)) == WeightedDot([], [], Weights(y, 1)) + a * b * y;
    DotStep([a], [h]);
    DotStep([b], [g]);
  }

  lemma OpeningCommitment(gens: Generators, y: Scalar, x: Opening, hs: seq<Point>, gs: seq<Point>, a: seq<Scalar>, b: seq<Scalar>)
    requires |hs| == |gs| == |a| == |b| == 1
    requires x.a == a[0] && x.b == b[0] && x.h == hs[0] && x.g == gs[0]
    ensures Commitment(gens, y, hs, gs, a, b, x.alpha) == x.Committed(gens, y)
    ensures Sum(hs) == x.h && Sum(gs) == x.g
  {
    hide Commitment;
    assert hs == [x.h] && gs == [x.g] && a == [x.a] && b == [x.b];
    SingleCommitment(gens, y, x.h, x.g, x.a, x.b, x.alpha);
    assert Sum(hs[..0]) == 0 && Sum(gs[..0]) == 0;
  }

  lemma FinalAnswers(gens: Generators, y: Scalar, st: Folding, committed: int, hs: seq<Point>, gs: seq<Point>,
                     a: seq<Scalar>, b: seq<Scalar>, log: Log, x: Opening, e: Scalar, proof: WipProof, aHat: int)
    requires |hs| == 1 && Folded(gens, y, st, committed, hs, gs, a, b, x.alpha, log)
    requires x.a == a[0] && x.b == b[0] && x.h == hs[0] && x.g == gs[0]
    requires proof.a == MultiExp(x.ATerms(gens, y)) && proof.b == MultiExp(x.BTerms(gens, y))
    requires proof.rRev == x.RRev(e) && proof.sRev == x.SRev(e) && proof.deltaRev == x.DeltaRev(e)
    ensures Cong(FinalSum(gens, y, e, aHat + st.lr, Sum(st.hs), Sum(st.gs), proof), (e * e) * (committed - aHat))
  {
    OpeningCommitment(gens, y, x, hs, gs, a, b);
    AnswersOpen(x, gens, y, e, aHat + st.lr, proof);
    hide Reduce, Commitment, FinalSum, MultiExp, Sum;
    hide x.Committed, x.ATerms, x.BTerms, x.RRev, x.SRev, x.DeltaRev;
    var known := aHat + st.lr;
    CongSub(x.Committed(gens, y), committed + st.lr, known, known);
    CongTimes(e * e, x.Committed(gens, y) - known, committed + st.lr - known);
  }

  /** Generates a proof. Whatever commitment it is later checked against, the
      verifier is left with the difference to the commitment of the witness. */
  method Generate(gens: Generators, ghost y0: Scalar, stmt: WipStmt, aL: seq<Scalar>, aR: seq<Scalar>, alpha0: Scalar,
                  transcript: Transcript, nonces: Nonces) returns (proof: WipProof)
    requires gens.Valid() && |aL| == |aR| == |gens.hBold|
    requires stmt.y == Weights(y0, |gens.hBold|)
    requires Invertible(y0) && ChallengesInvertible(transcript.oracle)
    modifies transcript
    ensures |proof.l| == |proof.r| && ProofLogged(transcript.log, old(transcript.log), proof)
    ensures var st := ProofRounds(gens, y0, transcript.oracle, old(transcript.log), proof);
            var e := FinalChallenge(st, transcript.oracle, proof);
            forall aHat: int ::
              Cong(Combination(gens, y0, transcript.oracle, old(transcript.log), aHat, proof),
                   (e * e) * (WitnessCommitment(gens, y0, aL, aR, alpha0) - aHat))
  {
    hide Reduce, Cong, Weights, MultiExp, Square, Commitment, Power, Mul, Add, FinalSum, Sum, Rounds, ProofLogged;
    var lVec, rVec, hBold, gBold, a, b, alpha := ProveRounds(gens, y0, stmt.y, aL, aR, alpha0, transcript, nonces);
    var y := stmt.y;
    FirstWeight(y0, |gens.hBold|);
    var rY := Mul(nonces.r, y[0]);
    var aTerms := [(nonces.r, hBold[0]), (nonces.s, gBold[0]),
                   (Add(Mul(rY, b[0]), Mul(Mul(nonces.s, y[0]), a[0])), gens.h), (nonces.delta, gens.g)];
    var pointA := MultiExp(aTerms);
    var bTerms := [(Mul(rY, nonces.s), gens.h), (nonces.n, gens.g)];
    var pointB := MultiExp(bTerms);
    var e := SyncPoints(pointA, pointB, transcript);
    proof := WipProof(lVec, rVec, pointA, pointB,
                      Add(nonces.r, Mul(a[0], e)), Add(nonces.s, Mul(b[0], e)),
                      Add(Add(nonces.n, Mul(nonces.delta, e)), Mul(alpha, Square(e))));

    ghost var log0, oracle, committed := old(transcript.log), transcript.oracle, WitnessCommitment(gens, y0, aL, aR, alpha0);
    ghost var st := Rounds(gens, y0, oracle, log0, lVec, rVec);
    ghost var x := Opening(a[0], b[0], alpha, hBold[0], gBold[0], nonces.r, nonces.s, nonces.delta, nonces.n);
    assert proof.l[..|lVec|] == lVec && proof.r[..|rVec|] == rVec;
    ProofIsLogged(gens, y0, oracle, log0, proof);
    forall aHat: int
      ensures Cong(Combination(gens, y0, oracle, log0, aHat, proof), (e * e) * (committed - aHat))
    {
      FinalAnswers(gens, y0, st, committed, hBold, gBold, a, b, st.log, x, e, proof, aHat);
    }
  }

  lemma FirstWeight(y: Scalar, n: nat)
    requires n >= 1
    ensures Weights(y, n)[0] == y
  {
    hide Reduce;
    PowerOne(y);
  }
}
