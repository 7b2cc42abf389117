/** The weighted inner product argument: the statement both sides agree on.

    The verifier's side is written here in its plain form, with folded
    generators; the prover's folding is proved against it. */
module WipArgument {
  import opened Scalars
  import opened Sums
  import opened VecOps
  import opened Transcripts

  datatype Generators = Generators(g: Point, h: Point, gBold: seq<Point>, hBold: seq<Point>) {
    /** The vectors have the same length, a power of two. */
    ghost predicate Valid() {
      |gBold| == |hBold| && 2 <= |gBold| && PowerOfTwo(|gBold|)
    }
  }

  datatype WipProof = WipProof(l: seq<Point>, r: seq<Point>, a: Point, b: Point,
                               rRev: Scalar, sRev: Scalar, deltaRev: Scalar)

  predicate PowerOfTwo(n: nat) {
    n == 1 || (n > 1 && n % 2 == 0 && PowerOfTwo(n / 2))
  }

  /** One folding of a generator vector. A vector of one point, which only a
      proof with too many rounds reaches, is scaled by the second factor. */
  function FoldStep(gens: seq<Point>, s0: Scalar, s1: Scalar): seq<Point>
    requires |gens| == 1 || |gens| % 2 == 0
  {
    if |gens| == 1 then [Reduce(s1 * gens[0])] else
      var n := |gens| / 2;
      seq(n, i requires 0 <= i < n => Reduce(s0 * gens[i] + s1 * gens[n + i]))
  }

  /** The weights y, y^2, .., y^n. */
  function Weights(y: Scalar, n: nat): (w: seq<Scalar>)
    ensures |w| == n
  {
    seq(n, i requires 0 <= i < n => Power(y, i + 1))
  }

  /** What the rounds of a proof lead to: the log, the folded generators and the
      sum of the scaled L and R points. */
  datatype Folding = Folding(log: Log, hs: seq<Point>, gs: seq<Point>, lr: int)

  function Half(n: nat): nat {
    (n + n % 2) / 2
  }

  lemma HalfOfPowerOfTwo(n: nat)
    requires PowerOfTwo(n)
    ensures PowerOfTwo(Half(n)) && 1 <= Half(n) <= n
    ensures n == 1 || n == 2 * Half(n)
  {
  }

  function Round(st: Folding, y: Scalar, oracle: Oracle, l: Point, r: Point): (st': Folding)
    requires PowerOfTwo(|st.hs|) && |st.hs| == |st.gs|
    requires Invertible(y) && ChallengesInvertible(oracle)
    ensures PowerOfTwo(|st'.hs|) && |st'.hs| == |st'.gs| == Half(|st.hs|)
  {
    var log := Synced(st.log, l, r);
    var p := oracle(log);
    var pInv := Inverse(p);
    var half := Half(|st.hs|);
    HalfOfPowerOfTwo(|st.hs|);
    PowerInvertible(y, half);
    var yInv := Inverse(Power(y, half));
    Folding(log, FoldStep(st.hs, pInv, Mul(p, yInv)), FoldStep(st.gs, p, pInv),
            st.lr + Square(p) * l + Square(pInv) * r)
  }

  function Rounds(gens: Generators, y: Scalar, oracle: Oracle, log: Log, ls: seq<Point>, rs: seq<Point>): (st: Folding)
    requires gens.Valid() && |ls| == |rs|
    requires Invertible(y) && ChallengesInvertible(oracle)
    ensures PowerOfTwo(|st.hs|) && |st.hs| == |st.gs|
  {
    if |ls| == 0 then Folding(log, gens.hBold, gens.gBold, 0) else
      var n := |ls| - 1;
      Round(Rounds(gens, y, oracle, log, ls[..n], rs[..n]), y, oracle, ls[n], rs[n])
  }

  /** The folding a proof leads to; surplus points of the longer list are ignored. */
  function ProofRounds(gens: Generators, y: Scalar, oracle: Oracle, log: Log, proof: WipProof): (st: Folding)
    requires gens.Valid() && Invertible(y) && ChallengesInvertible(oracle)
    ensures PowerOfTwo(|st.hs|) && |st.hs| == |st.gs|
  {
    var n := Min(|proof.l|, |proof.r|);
    Rounds(gens, y, oracle, log, proof.l[..n], proof.r[..n])
  }

  /** The rounds log their points, pair by pair, and nothing else. */
  lemma {:induction false} RoundsLogged(gens: Generators, y: Scalar, oracle: Oracle, log: Log, ls: seq<Point>, rs: seq<Point>)
    requires gens.Valid() && |ls| == |rs| && Invertible(y) && ChallengesInvertible(oracle)
    ensures Logged(Rounds(gens, y, oracle, log, ls, rs).log, log, ls, rs)
  {
    hide Synced, Logged, FoldStep, ChallengesInvertible, Invertible, PowerOfTwo;
    if |ls| == 0 {
      assert ls == [] && rs == [];
      LoggedNone(log);
    } else {
      var n := |ls| - 1;
      RoundsLogged(gens, y, oracle, log, ls[..n], rs[..n]);
      LoggedNext(Rounds(gens, y, oracle, log, ls[..n], rs[..n]).log, log, ls[..n], rs[..n], ls[n], rs[n]);
      assert ls[..n] + [ls[n]] == ls && rs[..n] + [rs[n]] == rs;
    }
  }

  /** The points of a proof in the order in which they are logged: the pairs of the
      rounds and then the pair of the last step. */
  ghost predicate ProofLogged(log: Log, start: Log, proof: WipProof) {
    var n := Min(|proof.l|, |proof.r|);
    Logged(log, start, proof.l[..n] + [proof.a], proof.r[..n] + [proof.b])
  }

  lemma ProofIsLogged(gens: Generators, y: Scalar, oracle: Oracle, log: Log, proof: WipProof)
    requires gens.Valid() && Invertible(y) && ChallengesInvertible(oracle)
    ensures ProofLogged(Synced(ProofRounds(gens, y, oracle, log, proof).log, proof.a, proof.b), log, proof)
  {
    hide Synced, Logged, Rounds, ChallengesInvertible, Invertible, PowerOfTwo;
    var n := Min(|proof.l|, |proof.r|);
    RoundsLogged(gens, y, oracle, log, proof.l[..n], proof.r[..n]);
    LoggedNext(ProofRounds(gens, y, oracle, log, proof).log, log, proof.l[..n], proof.r[..n], proof.a, proof.b);
  }

  function FinalChallenge(st: Folding, oracle: Oracle, proof: WipProof): Scalar {
    oracle(Synced(st.log, proof.a, proof.b))
  }

  /** The sum the verifier compares with the identity. */
  function Combination(gens: Generators, y: Scalar, oracle: Oracle, log: Log, aHat: int, proof: WipProof): int
    requires gens.Valid() && Invertible(y) && ChallengesInvertible(oracle)
  {
    var st := ProofRounds(gens, y, oracle, log, proof);
    FinalSum(gens, y, FinalChallenge(st, oracle, proof), aHat + st.lr, Sum(st.hs), Sum(st.gs), proof)
  }

  function FinalSum(gens: Generators, y: Scalar, e: Scalar, p: int, h: int, g: int, proof: WipProof): int {
    -(e * e) * p + (proof.rRev * e) * h + (proof.sRev * e) * g - e * proof.a
    + (proof.rRev * y * proof.sRev) * gens.h + proof.deltaRev * gens.g - proof.b
  }

  /** The commitment the argument is about. */
  function Commitment(gens: Generators, y: Scalar, hs: seq<Point>, gs: seq<Point>,
                      a: seq<Scalar>, b: seq<Scalar>, alpha: Scalar): int
    requires |a| == |b| == |hs| == |gs|
  {
    Dot(a, hs) + Dot(b, gs) + WeightedDot(a, b, Weights(y, |a|)) * gens.h + alpha * gens.g
  }
}
