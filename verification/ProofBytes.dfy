/** Range proofs as bytes: fixed-size points and scalars, then pairs of points to
    the end of the data. */
module ProofBytes {
  import opened Bytes
  import opened Options
  import opened Scalars
  import opened WipArgument
  import opened RangeProofs
  import opened VecOps

  /** A slice past the end of the data is a panic, a bad point or scalar is not. */
  datatype Outcome<T> = Panic | Absent | Present(value: T)

  /** The encodings of points (33 bytes) and scalars (32 bytes). */
  datatype Curve = Curve(
    pointBytes: Point -> seq<Byte>, toPoint: seq<Byte> -> Option<Point>,
    scalarBytes: Scalar -> seq<Byte>, toScalar: seq<Byte> -> Option<Scalar>)

  ghost predicate ValidCurve(c: Curve) {
    && (forall p: Point :: |c.pointBytes(p)| == 33 && c.toPoint(c.pointBytes(p)) == Some(p))
    && (forall x: Scalar :: |c.scalarBytes(x)| == 32 && c.toScalar(c.scalarBytes(x)) == Some(x))
  }

  // ---------- what is written

  function HeadBytes(c: Curve, p: WipProof): seq<Byte> {
    c.pointBytes(p.a) + c.pointBytes(p.b) + c.scalarBytes(p.rRev) + c.scalarBytes(p.sRev) + c.scalarBytes(p.deltaRev)
  }

  function PairsBytes(c: Curve, l: seq<Point>, r: seq<Point>, n: nat): seq<Byte>
    requires n <= |l| && n <= |r|
  {
    if n == 0 then [] else PairsBytes(c, l, r, n - 1) + c.pointBytes(l[n - 1]) + c.pointBytes(r[n - 1])
  }

  /** The pairs end with the shorter of the two lists. */
  function WipBytes(c: Curve, p: WipProof): seq<Byte> {
    HeadBytes(c, p) + PairsBytes(c, p.l, p.r, Min(|p.l|, |p.r|))
  }

  method ToBytes(c: Curve, p: WipProof) returns (bytes: seq<Byte>)
    ensures bytes == WipBytes(c, p)
    ensures c.pointBytes(p.a) + c.pointBytes(p.b) + c.scalarBytes(p.rRev) + c.scalarBytes(p.sRev) + c.scalarBytes(p.deltaRev)
            <= bytes
  {
    bytes := c.pointBytes(p.a);
    bytes := bytes + c.pointBytes(p.b);
    bytes := bytes + c.scalarBytes(p.rRev);
    bytes := bytes + c.scalarBytes(p.sRev);
    bytes := bytes + c.scalarBytes(p.deltaRev);
    for i := 0 to Min(|p.l|, |p.r|)
      invariant bytes == HeadBytes(c, p) + PairsBytes(c, p.l, p.r, i)
    {
      bytes := bytes + c.pointBytes(p.l[i]);
      bytes := bytes + c.pointBytes(p.r[i]);
    }
  }

  // ---------- what is read

  ghost predicate HeadReads(c: Curve, data: seq<Byte>, p: WipProof)
    requires |data| >= 162
  {
    && c.toPoint(data[..33]) == Some(p.a) && c.toPoint(data[33..66]) == Some(p.b)
    && c.toScalar(data[66..98]) == Some(p.rRev) && c.toScalar(data[98..130]) == Some(p.sRev)
    && c.toScalar(data[130..162]) == Some(p.deltaRev)
  }

  ghost predicate PairReads(c: Curve, data: seq<Byte>, i: nat, l: Point, r: Point) {
    && 66 * i + 228 <= |data|
    && c.toPoint(data[66 * i + 162..66 * i + 195]) == Some(l)
    && c.toPoint(data[66 * i + 195..66 * i + 228]) == Some(r)
  }

  ghost predicate PairsRead(c: Curve, data: seq<Byte>, l: seq<Point>, r: seq<Point>) {
    |l| == |r| && forall i | 0 <= i < |l| :: PairReads(c, data, i, l[i], r[i])
  }

  /** The data is a head and whole pairs, and `p` is what they parse to. */
  ghost predicate Reads(c: Curve, data: seq<Byte>, p: WipProof) {
    |data| == 66 * |p.l| + 162 && HeadReads(c, data, p) && PairsRead(c, data, p.l, p.r)
  }

  // ---------- when reading panics

  /** The head ends within a field, and every field before that one is good. */
  ghost predicate HeadBreaks(c: Curve, data: seq<Byte>) {
    || |data| < 33
    || (c.toPoint(data[..33]).Some? &&
        (|| |data| < 66
         || (c.toPoint(data[33..66]).Some? &&
             (|| |data| < 98
              || (c.toScalar(data[66..98]).Some? &&
                  (|| |data| < 130
                   || (c.toScalar(data[98..130]).Some? && |data| < 162)))))))
  }

  /** Pair `k` ends too early, within its first point or after a good one. */
  ghost predicate PairBreaks(c: Curve, data: seq<Byte>, k: nat) {
    && 66 * k + 162 < |data| < 66 * k + 228
    && (|data| < 66 * k + 195 || c.toPoint(data[66 * k + 162..66 * k + 195]).Some?)
  }

  /** Reading panics: at the first field that is too short, all before it being good. */
  ghost predicate Breaks(c: Curve, data: seq<Byte>) {
    || HeadBreaks(c, data)
    || (&& |data| >= 162 && (exists p :: HeadReads(c, data, p))
        && exists l, r :: PairsRead(c, data, l, r) && PairBreaks(c, data, |l|))
  }

  method ReadHead(c: Curve, data: seq<Byte>) returns (o: Outcome<WipProof>)
    ensures o.Panic? <==> HeadBreaks(c, data)
    ensures o.Panic? ==> |data| < 162
    ensures o.Present? ==> |data| >= 162 && HeadReads(c, data, o.value) && o.value.l == o.value.r == []
    ensures o.Absent? && |data| >= 162 ==> forall p :: !HeadReads(c, data, p)
  {
    if |data| < 33 {
      return Panic;
    }
    var a := c.toPoint(data[..33]);
    if a.None? {
      return Absent;
    }
    if |data| < 66 {
      return Panic;
    }
    var b := c.toPoint(data[33..66]);
    if b.None? {
      return Absent;
    }
    if |data| < 98 {
      return Panic;
    }
    var r := c.toScalar(data[66..98]);
    if r.None? {
      return Absent;
    }
    if |data| < 130 {
      return Panic;
    }
    var s := c.toScalar(data[98..130]);
    if s.None? {
      return Absent;
    }
    if |data| < 162 {
      return Panic;
    }
    var delta := c.toScalar(data[130..162]);
    if delta.None? {
      return Absent;
    }
    return Present(WipProof([], [], a.value, b.value, r.value, s.value, delta.value));
  }

  /** Returns the proof that the data is the encoding of, if it is one, and panics
      exactly when a field is cut short after good ones. */
  method FromBytes(c: Curve, data: seq<Byte>) returns (o: Outcome<WipProof>)
    ensures o.Panic? <==> Breaks(c, data)
    ensures !o.Present? ==> forall p :: !Reads(c, data, p)
    ensures o.Present? ==> Reads(c, data, o.value)
  {
    hide HeadReads, HeadBreaks, PairReads, PairBreaks;
    var head := ReadHead(c, data);
    if !head.Present? {
      return head;
    }
    var l: seq<Point>, r: seq<Point>, offset := [], [], 162;
    while offset < |data|
      invariant |l| == |r| && offset == 66 * |l| + 162 && PairsRead(c, data, l, r)
      invariant offset <= |data|
    {
      ghost var k := |l|;
      if |data| < offset + 33 {
        WrongLength(k, |data|);
        assert PairBreaks(c, data, k) by { BrokenPair(c, data, k); }
        return Panic;
      }
      var left := c.toPoint(data[offset..offset + 33]);
      if left.None? {
        BadPair(c, data, l, r);
        return Absent;
      }
      if |data| < offset + 66 {
        WrongLength(k, |data|);
        assert PairBreaks(c, data, k) by { BrokenPair(c, data, k); }
        return Panic;
      }
      var right := c.toPoint(data[offset + 33..offset + 66]);
      if right.None? {
        BadPair(c, data, l, r);
        return Absent;
      }
      assert PairReads(c, data, k, left.value, right.value) by { GoodPair(c, data, k, left.value, right.value); }
      l := l + [left.value];
      r := r + [right.value];
      offset := offset + 66;
    }
    WholePairs(c, data, l, r);
    o := Present(head.value.(l := l, r := r));
    assert HeadReads(c, data, o.value) by { SameHead(c, data, head.value, o.value); }
  }

  lemma BrokenPair(c: Curve, data: seq<Byte>, k: nat)
    requires 66 * k + 162 < |data| < 66 * k + 228
    requires |data| < 66 * k + 195 || c.toPoint(data[66 * k + 162..66 * k + 195]).Some?
    ensures PairBreaks(c, data, k)
  {
  }

  /** Data of whole pairs does not end within one. */
  lemma WholePairs(c: Curve, data: seq<Byte>, l: seq<Point>, r: seq<Point>)
    requires |data| == 66 * |l| + 162
    ensures forall k: nat :: !PairBreaks(c, data, k)
  {
    forall k: nat ensures !PairBreaks(c, data, k) {
      assert k < |l| ==> 66 * k + 228 <= |data|;
    }
  }

  lemma WrongLength(k: nat, n: nat)
    requires 66 * k + 162 < n < 66 * k + 228
    ensures (n - 162) % 66 != 0
    ensures forall m: nat :: n != 66 * m + 162
  {
    assert n - 162 == 66 * k + (n - 162 - 66 * k);
  }

  /** Data whose next pair is bad is no proof, and is not cut short either. */
  lemma BadPair(c: Curve, data: seq<Byte>, l: seq<Point>, r: seq<Point>)
    requires 66 * |l| + 195 <= |data|
    requires c.toPoint(data[66 * |l| + 162..66 * |l| + 195]).None? ||
             (66 * |l| + 228 <= |data| && c.toPoint(data[66 * |l| + 195..66 * |l| + 228]).None?)
    ensures forall p :: !Reads(c, data, p)
    ensures forall l', r' :: PairsRead(c, data, l', r') ==> !PairBreaks(c, data, |l'|)
  {
    var k := |l|;
    forall p ensures !Reads(c, data, p) {
      if |p.l| == |p.r| && |data| == 66 * |p.l| + 162 {
        assert !PairReads(c, data, k, p.l[k], p.r[k]);
      }
    }
    forall l', r' | |l'| == |r'| ensures PairsRead(c, data, l', r') ==> !PairBreaks(c, data, |l'|) {
      if k < |l'| {
        assert !PairReads(c, data, k, l'[k], r'[k]);
      }
    }
  }

  lemma GoodPair(c: Curve, data: seq<Byte>, k: nat, l: Point, r: Point)
    requires 66 * k + 228 <= |data|
    requires c.toPoint(data[66 * k + 162..66 * k + 195]) == Some(l) && c.toPoint(data[66 * k + 195..66 * k + 228]) == Some(r)
    ensures PairReads(c, data, k, l, r)
  {
  }

  lemma SameHead(c: Curve, data: seq<Byte>, p: WipProof, q: WipProof)
    requires |data| >= 162 && HeadReads(c, data, p) && q == p.(l := q.l, r := q.r)
    ensures HeadReads(c, data, q)
  {
  }

  // ---------- the round trip

  lemma {:induction false} PairsAt(c: Curve, l: seq<Point>, r: seq<Point>, n: nat, i: nat)
    requires ValidCurve(c) && i < n <= |l| && n <= |r|
    ensures |PairsBytes(c, l, r, n)| == 66 * n
    ensures PairsBytes(c, l, r, n)[66 * i..66 * i + 33] == c.pointBytes(l[i])
    ensures PairsBytes(c, l, r, n)[66 * i + 33..66 * i + 66] == c.pointBytes(r[i])
  {
    PairsLength(c, l, r, n - 1);
    var before := PairsBytes(c, l, r, n - 1);
    var all := before + c.pointBytes(l[n - 1]) + c.pointBytes(r[n - 1]);
    if i < n - 1 {
      PairsAt(c, l, r, n - 1, i);
      assert all[66 * i..66 * i + 33] == before[66 * i..66 * i + 33];
      assert all[66 * i + 33..66 * i + 66] == before[66 * i + 33..66 * i + 66];
    }
  }

  lemma {:induction false} PairsLength(c: Curve, l: seq<Point>, r: seq<Point>, n: nat)
    requires ValidCurve(c) && n <= |l| && n <= |r|
    ensures |PairsBytes(c, l, r, n)| == 66 * n
  {
    if n > 0 {
      PairsLength(c, l, r, n - 1);
    }
  }

  lemma HeadWritten(c: Curve, p: WipProof, tail: seq<Byte>)
    requires ValidCurve(c)
    ensures |HeadBytes(c, p)| == 162 && HeadReads(c, HeadBytes(c, p) + tail, p)
  {
    var data := HeadBytes(c, p) + tail;
    assert data[..33] == c.pointBytes(p.a);
    assert data[33..66] == c.pointBytes(p.b);
    assert data[66..98] == c.scalarBytes(p.rRev);
    assert data[98..130] == c.scalarBytes(p.sRev);
    assert data[130..162] == c.scalarBytes(p.deltaRev);
  }

  /** The bytes of a proof parse to that proof exactly when its two lists have the
      same length, as `RangeProofs.Generate` promises of those it returns. */
  lemma WipRoundTrip(c: Curve, p: WipProof)
    requires ValidCurve(c)
    ensures Reads(c, WipBytes(c, p), p) <==> |p.l| == |p.r|
  {
    hide HeadBytes, PairsBytes, HeadReads;
    if |p.l| == |p.r| {
      var n := |p.l|;
      var pairs := PairsBytes(c, p.l, p.r, n);
      HeadWritten(c, p, pairs);
      PairsLength(c, p.l, p.r, n);
      var data := WipBytes(c, p);
      forall i | 0 <= i < n ensures PairReads(c, data, i, p.l[i], p.r[i]) {
        PairsAt(c, p.l, p.r, n, i);
        assert data[66 * i + 162..66 * i + 195] == pairs[66 * i..66 * i + 33];
        assert data[66 * i + 195..66 * i + 228] == pairs[66 * i + 33..66 * i + 66];
      }
    }
  }

  lemma ReadsOneProof(c: Curve, data: seq<Byte>, p: WipProof, q: WipProof)
    requires Reads(c, data, p) && Reads(c, data, q)
    ensures p == q
  {
    forall i | 0 <= i < |p.l| ensures p.l[i] == q.l[i] && p.r[i] == q.r[i] {
      assert PairReads(c, data, i, p.l[i], p.r[i]) && PairReads(c, data, i, q.l[i], q.r[i]);
    }
    assert p.l == q.l && p.r == q.r;
  }

  // ---------- range proofs

  function RangeBytes(c: Curve, p: RangeProof): seq<Byte> {
    c.pointBytes(p.a) + WipBytes(c, p.wip)
  }

  ghost predicate RangeReads(c: Curve, data: seq<Byte>, p: RangeProof) {
    |data| >= 33 && c.toPoint(data[..33]) == Some(p.a) && Reads(c, data[33..], p.wip)
  }

  method RangeFromBytes(c: Curve, data: seq<Byte>) returns (o: Outcome<RangeProof>)
    ensures o.Panic? <==> |data| < 33 || (c.toPoint(data[..33]).Some? && Breaks(c, data[33..]))
    ensures !o.Present? ==> forall p :: !RangeReads(c, data, p)
    ensures o.Present? ==> RangeReads(c, data, o.value)
  {
    hide Reads, Breaks;
    if |data| < 33 {
      return Panic;
    }
    var a := c.toPoint(data[..33]);
    if a.None? {
      return Absent;
    }
    var wip := FromBytes(c, data[33..]);
    match wip {
      case Panic => o := Panic;
      case Absent => o := Absent;
      case Present(p) => o := Present(RangeProof(a.value, p));
    }
  }

  /** The bytes of a range proof parse to it and to nothing else. */
  lemma RangeRoundTrip(c: Curve, p: RangeProof, q: RangeProof)
    requires ValidCurve(c) && |p.wip.l| == |p.wip.r|
    ensures RangeReads(c, RangeBytes(c, p), q) <==> q == p
  {
    hide WipBytes, Reads;
    var data := RangeBytes(c, p);
    assert data[..33] == c.pointBytes(p.a) && data[33..] == WipBytes(c, p.wip);
    WipRoundTrip(c, p.wip);
    if RangeReads(c, data, q) {
      ReadsOneProof(c, data[33..], p.wip, q.wip);
    }
  }
}
