/** Receipt proofs and the amounts of each token that a list of them carries. */
module TokenSums {
  import opened Options
  import opened Bytes
  import opened Totals

  type Token = nat

  const ZERO_KEY: nat := 0
  const ZERO_TOKEN: Token := 0

  datatype Receipt = Receipt(token: Token, amount: nat)

  /** The proof kinds that the isolated checks tell apart. */
  datatype ReceiptProof = EmptyReceipt | Sig(inner: Receipt, innerKey: nat) | Other(inner: Receipt, kind: nat) {
    function Of(): Receipt {
      if EmptyReceipt? then Receipt(ZERO_TOKEN, 0) else inner
    }

    predicate IsBurn() {
      Sig? && innerKey == ZERO_KEY
    }
  }

  /** One more than the largest amount, which has sixteen bytes. */
  function AmountLimit(): (r: nat)
    ensures r > 0
  {
    Pow256(16)
  }

  /** It is 2 to the power of 128. */
  lemma AmountLimitIs()
    ensures AmountLimit() == 340282366920938463463374607431768211456
  {
    hide Pow256;
    PowersAre();
  }

  function Amount(p: ReceiptProof, token: Token): nat {
    if p.Of().token == token then p.Of().amount else 0
  }

  function AmountOf(token: Token): ReceiptProof -> nat {
    p => Amount(p, token)
  }

  /** The amount of a token in all the proofs, however large. */
  function Total(ps: seq<ReceiptProof>, token: Token): nat {
    SumBy(AmountOf(token), ps)
  }

  /** Every token comes in as it goes out, and no sum reaches the limit. */
  ghost predicate Conserved(ins: seq<ReceiptProof>, outs: seq<ReceiptProof>) {
    forall token :: Total(ins, token) == Total(outs, token) < AmountLimit()
  }

  ghost predicate Overflows(ps: seq<ReceiptProof>) {
    exists token :: Total(ps, token) >= AmountLimit()
  }

  lemma ConservedAnyOrder(ins: seq<ReceiptProof>, outs: seq<ReceiptProof>, ins': seq<ReceiptProof>, outs': seq<ReceiptProof>)
    requires multiset(ins) == multiset(ins') && multiset(outs) == multiset(outs')
    ensures Conserved(ins, outs) <==> Conserved(ins', outs')
  {
    hide SumBy, AmountLimit;
    forall token ensures Total(ins, token) == Total(ins', token) && Total(outs, token) == Total(outs', token) {
      SumAnyOrder(AmountOf(token), ins, ins');
      SumAnyOrder(AmountOf(token), outs, outs');
    }
  }

  /** Proofs that carry nothing do not matter. */
  lemma EmptyDoesNotCount(ps: seq<ReceiptProof>, i: nat, token: Token)
    requires i < |ps| && ps[i].Of().amount == 0
    ensures Total(But(ps, i), token) == Total(ps, token)
  {
    SumBut(AmountOf(token), ps, i);
  }

  /** An empty receipt carries nothing, and only a signature proof to the key zero is burnt. */
  lemma ProofsMean(p: ReceiptProof, token: Token)
    ensures p.EmptyReceipt? ==> Amount(p, token) == 0
    ensures !p.EmptyReceipt? ==> Amount(p, token) == if p.inner.token == token then p.inner.amount else 0
    ensures p.IsBurn() <==> exists inner :: p == Sig(inner, 0)
  {
    if p.IsBurn() {
      assert p == Sig(p.inner, 0);
    }
  }

  datatype CheckError =
    | NotEnoughProofs
    | ProofMappedToNotExistingInputOutput
    | InvalidProof(vout: nat)
    | BurntTokensSpending
    | AmountsSumOverflow
    | ConservationRulesViolated
    | AnnouncedAmountDoesNotMatch(announced: nat, total: nat)
    | IssueAnnouncementMismatch
    | IssueAnnouncementNotProvided
    | NotSameTokenPubkey
    | NewOwnerP2TRAddress

  datatype Check = Accepted | Rejected(error: CheckError)

  /** The positive sums by token, unless one of them reaches the limit. */
  ghost predicate SumsOf(m: map<Token, nat>, ps: seq<ReceiptProof>) {
    forall token ::
      && Total(ps, token) < AmountLimit()
      && (token in m <==> Total(ps, token) > 0)
      && (token in m ==> m[token] == Total(ps, token))
  }

  method SumAmountByTokenPubkey(ps: seq<ReceiptProof>) returns (r: Option<map<Token, nat>>)
    ensures r.Some? ==> SumsOf(r.value, ps)
    ensures r.None? <==> Overflows(ps)
  {
    hide SumBy, Amount, AmountLimit;
    var sums: map<Token, nat> := map[];
    NoSums();
    for i := 0 to |ps|
      invariant SumsOf(sums, ps[..i])
    {
      var p := ps[i];
      var receipt := p.Of();
      assert ps[..i + 1] == ps[..i] + [p];
      AddingOne(sums, ps[..i], p);
      if p.EmptyReceipt? || receipt.amount == 0 {
        continue;
      }
      var sum := (if receipt.token in sums then sums[receipt.token] else 0) + receipt.amount;
      if sum >= AmountLimit() {
        SumPrefix(AmountOf(receipt.token), ps, i + 1);
        assert Total(ps, receipt.token) >= AmountLimit();
        return None;
      }
      sums := sums[receipt.token := sum];
    }
    assert ps[..|ps|] == ps;
    return Some(sums);
  }

  lemma NoSums()
    ensures SumsOf(map[], [])
  {
    assert AmountLimit() > 0;
  }

  lemma AddingOne(sums: map<Token, nat>, ps: seq<ReceiptProof>, p: ReceiptProof)
    requires SumsOf(sums, ps)
    ensures p.Of().amount == 0 ==> SumsOf(sums, ps + [p])
    ensures var token := p.Of().token;
            var sum := (if token in sums then sums[token] else 0) + p.Of().amount;
            && Total(ps + [p], token) == sum
            && (sum < AmountLimit() && p.Of().amount > 0 ==> SumsOf(sums[token := sum], ps + [p]))
  {
    hide SumBy, AmountLimit;
    forall token ensures Total(ps + [p], token) == Total(ps, token) + Amount(p, token) {
      SumAppend(AmountOf(token), ps, p);
    }
    assert Total(ps, p.Of().token) < AmountLimit();
  }

  /** Accepts exactly what is conserved. */
  method CheckConservationRules(ins: seq<ReceiptProof>, outs: seq<ReceiptProof>) returns (r: Check)
    ensures r == Accepted <==> Conserved(ins, outs)
    ensures r == Rejected(AmountsSumOverflow) <==> Overflows(ins) || Overflows(outs)
    ensures r.Rejected? ==> r.error == AmountsSumOverflow || r.error == ConservationRulesViolated
  {
    hide SumBy, AmountLimit;
    var inSums := SumAmountByTokenPubkey(ins);
    if inSums.None? {
      return Rejected(AmountsSumOverflow);
    }
    var outSums := SumAmountByTokenPubkey(outs);
    if outSums.None? {
      return Rejected(AmountsSumOverflow);
    }
    SameSums(inSums.value, ins, outSums.value, outs);
    if inSums.value != outSums.value {
      return Rejected(ConservationRulesViolated);
    }
    return Accepted;
  }

  lemma SameSums(a: map<Token, nat>, ins: seq<ReceiptProof>, b: map<Token, nat>, outs: seq<ReceiptProof>)
    requires SumsOf(a, ins) && SumsOf(b, outs)
    ensures a == b <==> Conserved(ins, outs)
  {
    hide SumBy, AmountLimit;
    if a == b {
      forall token ensures Total(ins, token) == Total(outs, token) {
        assert token in a <==> token in b;
      }
    }
    if Conserved(ins, outs) {
      forall token ensures (token in a <==> token in b) && (token in a ==> a[token] == b[token]) {
        assert Total(ins, token) == Total(outs, token);
      }
      assert a == b;
    }
  }
}
