/** Range proofs: generation and verification, with the promise between them. */
module RangeProofs {
  import opened Scalars
  import opened Sums
  import opened VecOps
  import opened Transcripts
  import opened WipArgument
  import opened RangeStatement
  import opened RangeReduction
  import WipProver
  import WipVerifier

  datatype RangeProof = RangeProof(a: Point, wip: WipProof)

  function Drawn(log: Log, a: Point, tag: string): Log {
    log + [Message("a", a), Asked(tag)]
  }

  method CalculatePoint(a: Point, tag: string, transcript: Transcript) returns (e: Scalar)
    modifies transcript
    ensures transcript.log == old(transcript.log) + [Message("a", a), Asked(tag)]
    ensures transcript.log == Drawn(old(transcript.log), a, tag)
    ensures e == transcript.oracle(transcript.log)
  {
    transcript.AppendMessage("a", a);
    e := transcript.Challenge(tag);
    assert transcript.log == Drawn(old(transcript.log), a, tag);
  }

  function LogY(a: Point): Log {
    Drawn([Start("range_proof")], a, "y")
  }

  function LogZ(a: Point): Log {
    Drawn(LogY(a), a, "z")
  }

  /** The point is logged before each of the two challenges drawn from it. */
  lemma LogsOf(a: Point)
    ensures LogY(a) == [Start("range_proof"), Message("a", a), Asked("y")]
    ensures LogZ(a) == LogY(a) + [Message("a", a), Asked("z")]
    ensures LogY(a) == Drawn([Start("range_proof")], a, "y") && LogZ(a) == Drawn(LogY(a), a, "z")
  {
  }

  /** The log the last challenge of a proof is drawn from. */
  ghost function FinalLog(gens: Generators, oracle: Oracle, proof: RangeProof): Log
    requires gens.Valid() && ChallengesInvertible(oracle)
  {
    Synced(ProofRounds(gens, oracle(LogY(proof.a)), oracle, LogZ(proof.a), proof.wip).log, proof.wip.a, proof.wip.b)
  }

  /** The last challenge is drawn from every point of the proof: proofs that lead to the
      same log have the same points, and so the same challenges. */
  lemma FinalLogBinds(gens: Generators, oracle: Oracle, p: RangeProof, q: RangeProof)
    requires gens.Valid() && ChallengesInvertible(oracle) && FinalLog(gens, oracle, p) == FinalLog(gens, oracle, q)
    requires |p.wip.l| == |p.wip.r| && |q.wip.l| == |q.wip.r|
    ensures LastChallenge(gens, oracle, p) == oracle(FinalLog(gens, oracle, p)) == LastChallenge(gens, oracle, q)
    ensures p.a == q.a && p.wip.l == q.wip.l && p.wip.r == q.wip.r && p.wip.a == q.wip.a && p.wip.b == q.wip.b
  {
    hide Rounds, Synced, Logged, Invertible, PowerOfTwo;
    var log, x, y := FinalLog(gens, oracle, p), p.wip, q.wip;
    LogsOf(p.a);
    LogsOf(q.a);
    ProofIsLogged(gens, oracle(LogY(p.a)), oracle, LogZ(p.a), x);
    ProofIsLogged(gens, oracle(LogY(q.a)), oracle, LogZ(q.a), y);
    assert x.l[..|x.l|] == x.l && x.r[..|x.r|] == x.r && y.l[..|y.l|] == y.l && y.r[..|y.r|] == y.r;
    LoggedStart(log, LogZ(p.a), x.l + [x.a], x.r + [x.b]);
    LoggedStart(log, LogZ(q.a), y.l + [y.a], y.r + [y.b]);
    assert log[1] == Message("a", p.a) == Message("a", q.a);
    LoggedBinds(log, LogZ(p.a), x.l + [x.a], x.r + [x.b], y.l + [y.a], y.r + [y.b]);
    assert x.l == (x.l + [x.a])[..|x.l|] && y.l == (y.l + [y.a])[..|y.l|];
    assert x.r == (x.r + [x.b])[..|x.r|] && y.r == (y.r + [y.b])[..|y.r|];
    assert x.a == (x.l + [x.a])[|x.l|] && x.b == (x.r + [x.b])[|x.r|];
    assert y.a == (y.l + [y.a])[|y.l|] && y.b == (y.r + [y.b])[|y.r|];
  }

  lemma LoggedStart(log: Log, start: Log, ls: seq<Point>, rs: seq<Point>)
    requires |ls| == |rs| && Logged(log, start, ls, rs)
    ensures |log| >= |start| && forall i | 0 <= i < |start| :: log[i] == start[i]
  {
    assert log[..|start|] == start;
  }

  /** The sum `Verify` compares with the identity, in its folded form. */
  ghost function Checked(gens: Generators, oracle: Oracle, v: Point, proof: RangeProof): int
    requires gens.Valid() && ChallengesInvertible(oracle)
  {
    var y, z := oracle(LogY(proof.a)), oracle(LogZ(proof.a));
    Combination(gens, y, oracle, LogZ(proof.a), AHat(gens, v, proof.a, y, z), proof.wip)
  }

  ghost predicate Accepts(gens: Generators, oracle: Oracle, v: Point, proof: RangeProof)
    requires gens.Valid() && ChallengesInvertible(oracle)
  {
    Cong(Checked(gens, oracle, v, proof), 0)
  }

  /** The challenge of the last step of the argument inside a proof. */
  ghost function LastChallenge(gens: Generators, oracle: Oracle, proof: RangeProof): Scalar
    requires gens.Valid() && ChallengesInvertible(oracle)
  {
    FinalChallenge(ProofRounds(gens, oracle(LogY(proof.a)), oracle, LogZ(proof.a), proof.wip), oracle, proof.wip)
  }

  // ---------- what an honest proof leaves

  lemma ResidueSum(e: int, top: int, committed: int, aHat: int, aHatSum: int, base: int, c: int, v: int, total: int)
    requires Cong(total, (e * e) * (committed - aHat)) && Cong(aHat, aHatSum)
    requires Cong(base, committed) && aHatSum == base + top * (v - c)
    ensures Cong(total, (e * e) * (top * (c - v)))
  {
    hide Reduce;
    CongSub(committed, base, aHat, aHatSum);
    CongTimes(e * e, committed - aHat, base - aHatSum);
    assert base - aHatSum == top * (c - v) by { assert top * (v - c) == -(top * (c - v)); }
  }

  lemma ResidueVanishes(e: Scalar, top: Scalar, c: Point, v: Point, total: int)
    requires Invertible(e) && Invertible(top)
    requires Cong(total, (e * e) * (top * (c - v)))
    ensures Cong(total, 0) <==> v == c
  {
    hide Reduce, Invertible;
    if Cong(total, 0) {
      var d: int := c - v;
      assert (e * e) * (top * d) == e * (e * (top * d));
      CancelFactor(e, e * (top * d));
      CancelFactor(e, top * d);
      CancelFactor(top, d);
      CongAdd(v, v, d, 0);
      Canonical(v, c);
    }
    if v == c {
      assert top * (c - v) == 0;
    }
  }

  lemma HonestResidue(gens: Generators, oracle: Oracle, value: nat, blinding: Scalar, bits: seq<Scalar>, alpha: Scalar,
                      proof: RangeProof, v: Point)
    requires gens.Valid() && ChallengesInvertible(oracle)
    requires |bits| == |gens.hBold| && value < Pow2(|bits|)
    requires forall i | 0 <= i < |bits| :: bits[i] == Bit(value, i)
    requires Cong(proof.a, BitCommitment(gens, bits, alpha))
    requires var y, z := oracle(LogY(proof.a)), oracle(LogZ(proof.a));
             var e := LastChallenge(gens, oracle, proof);
             Cong(Checked(gens, oracle, v, proof),
                  (e * e) * (WipProver.WitnessCommitment(gens, y, ShiftedL(bits, z), ShiftedR(bits, y, z),
                                                         Add(alpha, Mul(blinding, Power(y, |bits| + 1))))
                             - AHat(gens, v, proof.a, y, z)))
    ensures var e, c := LastChallenge(gens, oracle, proof), Commit(gens, Reduce(value), blinding);
            Cong(Checked(gens, oracle, v, proof),
                 (e * e) * (Power(oracle(LogY(proof.a)), |gens.hBold| + 1) * (c - v)))
  {
    hide Reduce, Cong, AHatSum, Checked, Commit, WipProver.WitnessCommitment, ShiftedL, ShiftedR, Power, Pow2, Bit, BitCommitment, Mul, Add, LogY, LogZ, LastChallenge, ChallengesInvertible;
    var y: Scalar, z: Scalar, e: Scalar := oracle(LogY(proof.a)), oracle(LogZ(proof.a)), LastChallenge(gens, oracle, proof);
    var c := Commit(gens, Reduce(value), blinding);
    StatementIsWip(gens, value, blinding, bits, alpha, y, z, proof.a);
    StatementShift(gens, c, v, proof.a, y, z);
    Reduced(AHatSum(gens, v, proof.a, y, z));
    ResidueSum(e, Power(y, |gens.hBold| + 1),
               WipProver.WitnessCommitment(gens, y, ShiftedL(bits, z), ShiftedR(bits, y, z), Add(alpha, Mul(blinding, Power(y, |bits| + 1)))),
               AHat(gens, v, proof.a, y, z), AHatSum(gens, v, proof.a, y, z), AHatSum(gens, c, proof.a, y, z), c, v,
               Checked(gens, oracle, v, proof));
  }

  // ---------- generation

  /** Pushes the terms of the first point. */
  method CalculateATerms(gens: Generators, alpha: Scalar, aL: seq<Scalar>, aR: seq<Scalar>) returns (terms: Terms)
    requires |aL| == |aR| == |gens.hBold| == |gens.gBold|
    ensures Total(terms) == Dot(aL, gens.hBold) + Dot(aR, gens.gBold) + alpha * gens.g
  {
    hide Reduce, Dot;
    terms := [];
    for i := 0 to |aL|
      invariant terms == Zip(aL[..i], gens.hBold[..i])
    {
      terms := terms + [(aL[i], gens.hBold[i])];
      assert terms == Zip(aL[..i + 1], gens.hBold[..i + 1]);
    }
    assert aL[..|aL|] == aL && gens.hBold[..|aL|] == gens.hBold;
    ghost var left := Zip(aL, gens.hBold);
    for i := 0 to |aR|
      invariant terms == left + Zip(aR[..i], gens.gBold[..i])
    {
      terms := terms + [(aR[i], gens.gBold[i])];
      assert terms == left + Zip(aR[..i + 1], gens.gBold[..i + 1]);
    }
    assert aR[..|aR|] == aR && gens.gBold[..|aR|] == gens.gBold;
    TotalZip(aL, gens.hBold);
    TotalZip(aR, gens.gBold);
    TotalAppend(left, Zip(aR, gens.gBold));
    TotalSnoc(terms, alpha, gens.g);
    terms := terms + [(alpha, gens.g)];
  }

  /** Generates a range proof and the commitment it is for. The proof is
      accepted for that commitment and for no other point. */
  method Generate(gens: Generators, oracle: Oracle, value: nat, blinding: Scalar, alpha0: Scalar, nonces: WipProver.Nonces)
    returns (proof: RangeProof, commit: Point)
    requires gens.Valid() && ChallengesInvertible(oracle)
    requires value < Pow2(|gens.hBold|)
    ensures commit == Commit(gens, Reduce(value), blinding) && |proof.wip.l| == |proof.wip.r|
    ensures var e := LastChallenge(gens, oracle, proof);
            forall v: Point :: Cong(Checked(gens, oracle, v, proof),
                                    (e * e) * (Power(oracle(LogY(proof.a)), |gens.hBold| + 1) * (commit - v)))
    ensures forall v: Point :: Accepts(gens, oracle, v, proof) <==> v == commit
  {
    hide Reduce, Cong, AHatSum, AHat, Combination, WipProver.WitnessCommitment, Power, Pow2, Bit, Mul, Add, Dot, Total, LogY, LogZ, LastChallenge, Checked, Descending, Weights;
    var transcript := new Transcript(oracle, "range_proof");
    commit := Commit(gens, Reduce(value), blinding);
    var aL := CalculateAL(value, |gens.hBold|);
    var aR := SubEach(aL, 1);
    var aTerms := CalculateATerms(gens, alpha0, aL, aR);
    var a := MultiExp(aTerms);
    Reduced(Total(aTerms));
    LogsOf(a);
    var y := CalculatePoint(a, "y", transcript);
    var z := CalculatePoint(a, "z", transcript);
    var twoDescendingY, yNPlusOne, aHat := CalculateAHat(gens, commit, a, y, z);
    var sL := SubEach(aL, z);
    var sR := AddAll(aR, AddEach(twoDescendingY, z));
    var alpha := Add(alpha0, Mul(blinding, yNPlusOne));
    var stmt := WipProver.NewStmt(aHat, y, |gens.hBold|);
    var wip := WipProver.Generate(gens, y, stmt, sL, sR, alpha, transcript, nonces);
    proof := RangeProof(a, wip);
    LastChallengeOf(gens, oracle, proof);
    forall v: Point
      ensures Cong(Checked(gens, oracle, v, proof),
                   (LastChallenge(gens, oracle, proof) * LastChallenge(gens, oracle, proof))
                   * (Power(oracle(LogY(proof.a)), |gens.hBold| + 1) * (commit - v)))
      ensures Accepts(gens, oracle, v, proof) <==> v == commit
    {
      CheckedIs(gens, oracle, v, proof);
      HonestResidue(gens, oracle, value, blinding, aL, alpha0, proof, v);
      PowerInvertible(y, |gens.hBold| + 1);
      ResidueVanishes(LastChallenge(gens, oracle, proof), Power(y, |gens.hBold| + 1), commit, v, Checked(gens, oracle, v, proof));
    }
  }

  lemma CheckedIs(gens: Generators, oracle: Oracle, v: Point, proof: RangeProof)
    requires gens.Valid() && ChallengesInvertible(oracle)
    ensures var y, z := oracle(LogY(proof.a)), oracle(LogZ(proof.a));
            Checked(gens, oracle, v, proof)
            == Combination(gens, y, oracle, LogZ(proof.a), AHat(gens, v, proof.a, y, z), proof.wip)
  {
    hide Combination, AHat;
  }

  lemma LastChallengeOf(gens: Generators, oracle: Oracle, proof: RangeProof)
    requires gens.Valid() && ChallengesInvertible(oracle)
    ensures LastChallenge(gens, oracle, proof)
         == FinalChallenge(ProofRounds(gens, oracle(LogY(proof.a)), oracle, LogZ(proof.a), proof.wip), oracle, proof.wip)
    ensures Invertible(LastChallenge(gens, oracle, proof))
  {
    hide Invertible, ProofRounds;
  }

  // ---------- verification

  /** Verifies a range proof against a commitment. */
  method Verify(gens: Generators, oracle: Oracle, commit: Point, proof: RangeProof) returns (ok: bool)
    requires gens.Valid() && ChallengesInvertible(oracle)
    ensures ok <==> Accepts(gens, oracle, commit, proof)
  {
    hide Reduce, AHat, Combination, Total, LogY, LogZ, Weights;
    var transcript := new Transcript(oracle, "range_proof");
    LogsOf(proof.a);
    var y := CalculatePoint(proof.a, "y", transcript);
    var z := CalculatePoint(proof.a, "z", transcript);
    var _, _, aHat := CalculateAHat(gens, commit, proof.a, y, z);
    var stmt := WipProver.NewStmt(aHat, y, |gens.hBold|);
    var terms := WipVerifier.Verify(gens, y, stmt, proof.wip, transcript);
    ok := MultiExp(terms) == IDENTITY;
    IdentityIsZero(Total(terms));
  }

  lemma IdentityIsZero(t: int)
    ensures Reduce(t) == IDENTITY <==> Cong(t, 0)
  {
    hide Reduce;
    RemainderUnique(0, 0, 0);
  }
}
