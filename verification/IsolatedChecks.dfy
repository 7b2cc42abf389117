/** The checks of a transaction that need nothing but the transaction. */
module IsolatedChecks {
  import opened Options
  import opened Modulo
  import opened ProofMaps
  import opened Totals
  import opened TokenSums

  type Txid = nat

  datatype OutPoint = OutPoint(txid: Txid, vout: nat)

  datatype TxIn = TxIn(previous: OutPoint, stack: nat)

  datatype TxOut = TxOut(isOpReturn: bool, script: nat)

  datatype BitcoinTx = BitcoinTx(id: Txid, inputs: seq<TxIn>, outputs: seq<TxOut>)

  type ProofMap = m: seq<(nat, ReceiptProof)> | Ascending(m) witness []

  datatype IssueAnnouncement = IssueAnnouncement(token: Token, amount: nat)

  datatype Announcement = TransferOwnership(newOwnerIsP2tr: bool) | OtherAnnouncement

  datatype TxType =
    | Issue(minted: Option<ProofMap>, announcement: IssueAnnouncement)
    | Transfer(inputProofs: ProofMap, outputProofs: ProofMap)
    | Announce(announced: Announcement)
    | SparkExit(exitProofs: ProofMap)

  datatype Tx = Tx(bitcoin: BitcoinTx, kind: TxType)

  /** The checks of single proofs against an input or an output, and the reading
      of an issue announcement from an output's script. */
  datatype Oracle = Oracle(
    byInput: (ReceiptProof, TxIn) -> bool,
    byOutput: (ReceiptProof, TxOut) -> bool,
    announcement: TxOut -> Option<IssueAnnouncement>)

  // ---------- what each check accepts

  function Spendable(outputs: seq<TxOut>): seq<TxOut> {
    if outputs == [] then []
    else
      var last := outputs[|outputs| - 1];
      Spendable(outputs[..|outputs| - 1]) + if last.isOpReturn then [] else [last]
  }

  /** The outputs that carry no data, each as often as it is there. */
  lemma {:induction false} SpendableIsExact(outputs: seq<TxOut>, out: TxOut)
    ensures multiset(Spendable(outputs))[out] == if out.isOpReturn then 0 else multiset(outputs)[out]
  {
    if outputs != [] {
      var n := |outputs| - 1;
      assert outputs == outputs[..n] + [outputs[n]];
      SpendableIsExact(outputs[..n], out);
    }
  }

  /** The positions of those outputs; there are as many. */
  ghost function SpendableAt(outputs: seq<TxOut>): set<nat> {
    set i: nat | i < |outputs| && !outputs[i].isOpReturn
  }

  lemma {:induction false} SpendableCount(outputs: seq<TxOut>)
    ensures |Spendable(outputs)| == |SpendableAt(outputs)|
  {
    if outputs != [] {
      var n := |outputs| - 1;
      SpendableCount(outputs[..n]);
      var before, all := SpendableAt(outputs[..n]), SpendableAt(outputs);
      assert forall i: nat | i < n :: outputs[..n][i] == outputs[i];
      if outputs[n].isOpReturn {
        assert all == before;
      } else {
        assert all == before + {n};
      }
    }
  }

  ghost predicate InRange(m: ProofMap, size: nat) {
    forall i | 0 <= i < |m| :: m[i].0 < size
  }

  /** The announcement of the first output that has one. */
  ghost predicate FirstAnnouncement(o: Oracle, outputs: seq<TxOut>, a: IssueAnnouncement) {
    exists i :: 0 <= i < |outputs| && o.announcement(outputs[i]) == Some(a) &&
                forall j | 0 <= j < i :: o.announcement(outputs[j]).None?
  }

  ghost predicate OneToken(ps: seq<ReceiptProof>, token: Token) {
    forall i | 0 <= i < |ps| :: ps[i].EmptyReceipt? || ps[i].Of().token == token
  }

  /** The output proofs are good, those on data outputs apart. */
  ghost predicate OutputsHold(o: Oracle, tx: BitcoinTx, m: ProofMap) {
    && InRange(m, |tx.outputs|)
    && forall i | 0 <= i < |m| :: tx.outputs[m[i].0].isOpReturn || o.byOutput(m[i].1, tx.outputs[m[i].0])
  }

  function AmountIn(): ReceiptProof -> nat {
    (p: ReceiptProof) => p.Of().amount
  }

  function Sum(ps: seq<ReceiptProof>): nat {
    SumBy(AmountIn(), ps)
  }

  /** The amounts are added without a check, so the sum wraps around. */
  ghost predicate IssueAccepted(o: Oracle, tx: BitcoinTx, minted: Option<ProofMap>, a: IssueAnnouncement) {
    && minted.Some?
    && FirstAnnouncement(o, tx.outputs, a)
    && |Spendable(tx.outputs)| == |minted.value|
    && OneToken(Values(minted.value), a.token)
    && OutputsHold(o, tx, minted.value)
    && Sum(Values(minted.value)) % AmountLimit() == a.amount
  }

  ghost predicate TransferAccepted(o: Oracle, tx: BitcoinTx, inputs: ProofMap, outputs: ProofMap) {
    && |Spendable(tx.outputs)| == |outputs|
    && InRange(inputs, |tx.inputs|) && InRange(outputs, |tx.outputs|)
    && (forall i | 0 <= i < |inputs| :: !inputs[i].1.IsBurn() && o.byInput(inputs[i].1, tx.inputs[inputs[i].0]))
    && (forall i | 0 <= i < |outputs| :: o.byOutput(outputs[i].1, tx.outputs[outputs[i].0]))
    && Conserved(Values(inputs), Values(outputs))
  }

  ghost predicate ExitAccepted(o: Oracle, tx: BitcoinTx, m: ProofMap) {
    |Spendable(tx.outputs)| == |m| && OutputsHold(o, tx, m)
  }

  ghost predicate TxAccepted(o: Oracle, tx: Tx) {
    match tx.kind
    case Issue(minted, a) => IssueAccepted(o, tx.bitcoin, minted, a)
    case Transfer(inputs, outputs) => TransferAccepted(o, tx.bitcoin, inputs, outputs)
    case Announce(a) => a != TransferOwnership(true)
    case SparkExit(outputs) => ExitAccepted(o, tx.bitcoin, outputs)
  }

  // ---------- which error is reported

  /** Entry `i` is the first whose input proof is burnt or bad, and the error says so. */
  ghost predicate InputFails(o: Oracle, tx: BitcoinTx, m: ProofMap, i: nat, r: Check)
    requires InRange(m, |tx.inputs|) && i < |m|
  {
    && (forall j | 0 <= j < i :: !m[j].1.IsBurn() && o.byInput(m[j].1, tx.inputs[m[j].0]))
    && (m[i].1.IsBurn() || !o.byInput(m[i].1, tx.inputs[m[i].0]))
    && r == Rejected(if m[i].1.IsBurn() then BurntTokensSpending else InvalidProof(m[i].0))
  }

  ghost predicate OutputHolds(o: Oracle, tx: BitcoinTx, m: ProofMap, skipsData: bool, i: nat)
    requires InRange(m, |tx.outputs|) && i < |m|
  {
    (skipsData && tx.outputs[m[i].0].isOpReturn) || o.byOutput(m[i].1, tx.outputs[m[i].0])
  }

  /** Entry `i` is the first whose output proof is bad, and the error says so. */
  ghost predicate OutputFails(o: Oracle, tx: BitcoinTx, m: ProofMap, skipsData: bool, i: nat, r: Check)
    requires InRange(m, |tx.outputs|) && i < |m|
  {
    && (forall j | 0 <= j < i :: OutputHolds(o, tx, m, skipsData, j)) && !OutputHolds(o, tx, m, skipsData, i)
    && r == Rejected(InvalidProof(m[i].0))
  }

  ghost predicate Gathered<T(!new)>(m: ProofMap, items: seq<T>, gathered: seq<(T, nat, ReceiptProof)>) {
    InRange(m, |items|) && |gathered| == |m| && forall i | 0 <= i < |m| :: gathered[i] == (items[m[i].0], m[i].0, m[i].1)
  }

  /** The first output proof that is bad, and the first input proof that is burnt or bad. */
  ghost predicate FirstBadOutput(o: Oracle, gathered: seq<(TxOut, nat, ReceiptProof)>, skipsData: bool, i: nat)
    requires i < |gathered|
  {
    && (forall j | 0 <= j < i :: (skipsData && gathered[j].0.isOpReturn) || o.byOutput(gathered[j].2, gathered[j].0))
    && !(skipsData && gathered[i].0.isOpReturn) && !o.byOutput(gathered[i].2, gathered[i].0)
  }

  ghost predicate FirstBadInput(o: Oracle, gathered: seq<(TxIn, nat, ReceiptProof)>, i: nat)
    requires i < |gathered|
  {
    && (forall j | 0 <= j < i :: !gathered[j].2.IsBurn() && o.byInput(gathered[j].2, gathered[j].0))
    && (gathered[i].2.IsBurn() || !o.byInput(gathered[i].2, gathered[i].0))
  }

  lemma FailedOutput(o: Oracle, tx: BitcoinTx, m: ProofMap, gathered: seq<(TxOut, nat, ReceiptProof)>, skipsData: bool, r: Check)
    requires Gathered(m, tx.outputs, gathered)
    requires exists i :: 0 <= i < |gathered| && FirstBadOutput(o, gathered, skipsData, i) && r == Rejected(InvalidProof(gathered[i].1))
    ensures exists i :: 0 <= i < |m| && OutputFails(o, tx, m, skipsData, i, r)
    ensures exists i :: 0 <= i < |m| && !OutputHolds(o, tx, m, skipsData, i)
  {
    var i :| 0 <= i < |gathered| && FirstBadOutput(o, gathered, skipsData, i) && r == Rejected(InvalidProof(gathered[i].1));
    forall j | 0 <= j < i ensures OutputHolds(o, tx, m, skipsData, j) {
      assert gathered[j] == (tx.outputs[m[j].0], m[j].0, m[j].1);
    }
    assert OutputFails(o, tx, m, skipsData, i, r);
  }

  lemma FailedInput(o: Oracle, tx: BitcoinTx, m: ProofMap, gathered: seq<(TxIn, nat, ReceiptProof)>, r: Check)
    requires Gathered(m, tx.inputs, gathered)
    requires exists i :: 0 <= i < |gathered| && FirstBadInput(o, gathered, i) &&
                         r == Rejected(if gathered[i].2.IsBurn() then BurntTokensSpending else InvalidProof(gathered[i].1))
    ensures exists i :: 0 <= i < |m| && InputFails(o, tx, m, i, r)
  {
    var i :| 0 <= i < |gathered| && FirstBadInput(o, gathered, i) &&
             r == Rejected(if gathered[i].2.IsBurn() then BurntTokensSpending else InvalidProof(gathered[i].1));
    forall j | 0 <= j < i ensures !m[j].1.IsBurn() && o.byInput(m[j].1, tx.inputs[m[j].0]) {
      assert gathered[j] == (tx.inputs[m[j].0], m[j].0, m[j].1);
    }
    assert InputFails(o, tx, m, i, r);
  }

  /** The first proof that is no empty receipt is of another token, or a later one is. */
  ghost function TokenError(ps: seq<ReceiptProof>, token: Token): CheckError {
    if exists i :: 0 <= i < |ps| && !ps[i].EmptyReceipt? && ps[i].Of().token != token &&
                   forall j | 0 <= j < i :: ps[j].EmptyReceipt?
    then IssueAnnouncementMismatch else NotSameTokenPubkey
  }

  // ---------- the checks

  function CheckNumberOfProofs(tx: BitcoinTx, m: ProofMap): Check {
    if |Spendable(tx.outputs)| == |m| then Accepted else Rejected(NotEnoughProofs)
  }

  /** The entries of the map with the input or output each belongs to. */
  method ExtractByProofMap<T>(m: ProofMap, items: seq<T>) returns (r: Option<seq<(T, nat, ReceiptProof)>>)
    ensures r.Some? <==> InRange(m, |items|)
    ensures r.Some? ==> |r.value| == |m|
    ensures r.Some? ==> forall i | 0 <= i < |m| :: r.value[i] == (items[m[i].0], m[i].0, m[i].1)
  {
    var gathered: seq<(T, nat, ReceiptProof)> := [];
    for i := 0 to |m|
      invariant |gathered| == i
      invariant forall j | 0 <= j < i :: m[j].0 < |items| && gathered[j] == (items[m[j].0], m[j].0, m[j].1)
    {
      var (vout, proof) := m[i];
      if vout >= |items| {
        return None;
      }
      gathered := gathered + [(items[vout], vout, proof)];
    }
    return Some(gathered);
  }

  method CheckIssueAnnouncement(o: Oracle, tx: BitcoinTx, a: IssueAnnouncement) returns (r: Check)
    ensures r == Accepted <==> FirstAnnouncement(o, tx.outputs, a)
    ensures r.Rejected? ==> r.error == IssueAnnouncementNotProvided || r.error == IssueAnnouncementMismatch
    ensures r == Rejected(IssueAnnouncementNotProvided) <==>
              forall i | 0 <= i < |tx.outputs| :: o.announcement(tx.outputs[i]).None?
  {
    for i := 0 to |tx.outputs|
      invariant forall j | 0 <= j < i :: o.announcement(tx.outputs[j]).None?
    {
      var found := o.announcement(tx.outputs[i]);
      if found.Some? {
        if found.value != a {
          return Rejected(IssueAnnouncementMismatch);
        }
        return Accepted;
      }
    }
    return Rejected(IssueAnnouncementNotProvided);
  }

  function NotEmpty(ps: seq<ReceiptProof>): (r: seq<ReceiptProof>)
    ensures forall i | 0 <= i < |ps| :: ps[i].EmptyReceipt? || ps[i] in r
    ensures forall p | p in r :: p in ps && !p.EmptyReceipt?
  {
    if ps == [] then []
    else
      var last := ps[|ps| - 1];
      NotEmpty(ps[..|ps| - 1]) + if last.EmptyReceipt? then [] else [last]
  }

  lemma {:induction false} FirstNotEmpty(ps: seq<ReceiptProof>)
    requires NotEmpty(ps) != []
    ensures exists i :: 0 <= i < |ps| && NotEmpty(ps)[0] == ps[i] && !ps[i].EmptyReceipt? && forall j | 0 <= j < i :: ps[j].EmptyReceipt?
  {
    var n := |ps| - 1;
    if NotEmpty(ps[..n]) == [] {
      assert forall j | 0 <= j < n :: ps[j] == ps[..n][j];
      assert NotEmpty(ps)[0] == ps[n];
    } else {
      FirstNotEmpty(ps[..n]);
      var i :| 0 <= i < n && NotEmpty(ps[..n])[0] == ps[..n][i] && !ps[..n][i].EmptyReceipt? &&
               forall j | 0 <= j < i :: ps[..n][j].EmptyReceipt?;
      assert forall j | 0 <= j <= i :: ps[j] == ps[..n][j];
    }
  }

  method CheckSameTokenPubkeyProofs(ps: seq<ReceiptProof>, a: IssueAnnouncement) returns (r: Check)
    ensures r == Accepted <==> OneToken(ps, a.token)
    ensures r.Rejected? ==> r.error == TokenError(ps, a.token)
  {
    hide NotEmpty;
    var filtered := NotEmpty(ps);
    if filtered == [] {
      return Accepted;
    }
    var first := filtered[0];
    FirstNotEmpty(ps);
    if first.Of().token != a.token {
      return Rejected(IssueAnnouncementMismatch);
    }
    if forall i | 0 <= i < |filtered| :: filtered[i].Of().token == first.Of().token {
      return Accepted;
    }
    return Rejected(NotSameTokenPubkey);
  }

  method CheckOutputProofs(o: Oracle, gathered: seq<(TxOut, nat, ReceiptProof)>, skipsData: bool) returns (r: Check)
    ensures r == Accepted <==>
              forall i | 0 <= i < |gathered| :: (skipsData && gathered[i].0.isOpReturn) || o.byOutput(gathered[i].2, gathered[i].0)
    ensures r.Rejected? ==>
              exists i :: 0 <= i < |gathered| && FirstBadOutput(o, gathered, skipsData, i) && r.error == InvalidProof(gathered[i].1)
  {
    for i := 0 to |gathered|
      invariant forall j | 0 <= j < i :: (skipsData && gathered[j].0.isOpReturn) || o.byOutput(gathered[j].2, gathered[j].0)
    {
      var (output, vout, proof) := gathered[i];
      if skipsData && output.isOpReturn {
        continue;
      }
      if !o.byOutput(proof, output) {
        return Rejected(InvalidProof(vout));
      }
    }
    return Accepted;
  }

  method CheckIssueIsolated(o: Oracle, tx: BitcoinTx, minted: Option<ProofMap>, a: IssueAnnouncement) returns (r: Check)
    ensures r == Accepted <==> IssueAccepted(o, tx, minted, a)
    ensures minted.None? ==> r == Rejected(NotEnoughProofs)
    ensures minted.Some? ==>
              var m := minted.value;
              if !FirstAnnouncement(o, tx.outputs, a) then
                r == Rejected(if forall i | 0 <= i < |tx.outputs| :: o.announcement(tx.outputs[i]).None?
                              then IssueAnnouncementNotProvided else IssueAnnouncementMismatch)
              else if |Spendable(tx.outputs)| != |m| then r == Rejected(NotEnoughProofs)
              else if !OneToken(Values(m), a.token) then r == Rejected(TokenError(Values(m), a.token))
              else if !InRange(m, |tx.outputs|) then r == Rejected(ProofMappedToNotExistingInputOutput)
              else if !OutputsHold(o, tx, m) then exists i :: 0 <= i < |m| && OutputFails(o, tx, m, true, i, r)
              else r.Rejected? ==> r == Rejected(AnnouncedAmountDoesNotMatch(a.amount, Sum(Values(m)) % AmountLimit()))
  {
    hide FirstAnnouncement, OneToken, Spendable, AmountLimit;
    if minted.None? {
      return Rejected(NotEnoughProofs);
    }
    var proofs := minted.value;
    r := CheckIssueAnnouncement(o, tx, a);
    if r.Rejected? {
      return;
    }
    r := CheckNumberOfProofs(tx, proofs);
    if r.Rejected? {
      return;
    }
    r := CheckSameTokenPubkeyProofs(Values(proofs), a);
    if r.Rejected? {
      return;
    }
    var gathered := ExtractByProofMap(proofs, tx.outputs);
    if gathered.None? {
      return Rejected(ProofMappedToNotExistingInputOutput);
    }
    r := CheckOutputProofs(o, gathered.value, true);
    if r.Rejected? {
      FailedOutput(o, tx, proofs, gathered.value, true, r);
      return;
    }
    var total := Sum(Values(proofs)) % AmountLimit();
    if total != a.amount {
      return Rejected(AnnouncedAmountDoesNotMatch(a.amount, total));
    }
    return Accepted;
  }

  method CheckSparkExitIsolated(o: Oracle, tx: BitcoinTx, outputs: ProofMap) returns (r: Check)
    ensures r == Accepted <==> ExitAccepted(o, tx, outputs)
    ensures r.Rejected? ==>
              if |Spendable(tx.outputs)| != |outputs| then r == Rejected(NotEnoughProofs)
              else if !InRange(outputs, |tx.outputs|) then r == Rejected(ProofMappedToNotExistingInputOutput)
              else exists i :: 0 <= i < |outputs| && OutputFails(o, tx, outputs, true, i, r)
  {
    hide Spendable;
    r := CheckNumberOfProofs(tx, outputs);
    if r.Rejected? {
      return;
    }
    var gathered := ExtractByProofMap(outputs, tx.outputs);
    if gathered.None? {
      return Rejected(ProofMappedToNotExistingInputOutput);
    }
    r := CheckOutputProofs(o, gathered.value, true);
    if r.Rejected? {
      FailedOutput(o, tx, outputs, gathered.value, true, r);
    }
  }

  method CheckInputProofs(o: Oracle, gathered: seq<(TxIn, nat, ReceiptProof)>) returns (r: Check)
    ensures r == Accepted <==>
              forall i | 0 <= i < |gathered| :: !gathered[i].2.IsBurn() && o.byInput(gathered[i].2, gathered[i].0)
    ensures r.Rejected? ==>
              exists i :: 0 <= i < |gathered| && FirstBadInput(o, gathered, i) &&
                          r.error == if gathered[i].2.IsBurn() then BurntTokensSpending else InvalidProof(gathered[i].1)
  {
    for i := 0 to |gathered|
      invariant forall j | 0 <= j < i :: !gathered[j].2.IsBurn() && o.byInput(gathered[j].2, gathered[j].0)
    {
      var (input, vout, proof) := gathered[i];
      if proof.IsBurn() {
        return Rejected(BurntTokensSpending);
      }
      if !o.byInput(proof, input) {
        return Rejected(InvalidProof(vout));
      }
    }
    return Accepted;
  }

  method CheckProofsIsolated(o: Oracle, tx: BitcoinTx, inputs: ProofMap, outputs: ProofMap) returns (r: Check)
    ensures r == Accepted <==> TransferAccepted(o, tx, inputs, outputs)
    ensures r.Rejected? ==>
              if |Spendable(tx.outputs)| != |outputs| then r == Rejected(NotEnoughProofs)
              else if !(InRange(inputs, |tx.inputs|) && InRange(outputs, |tx.outputs|)) then r == Rejected(ProofMappedToNotExistingInputOutput)
              else if !(forall i | 0 <= i < |inputs| :: !inputs[i].1.IsBurn() && o.byInput(inputs[i].1, tx.inputs[inputs[i].0])) then
                exists i :: 0 <= i < |inputs| && InputFails(o, tx, inputs, i, r)
              else if !(forall i | 0 <= i < |outputs| :: OutputHolds(o, tx, outputs, false, i)) then
                exists i :: 0 <= i < |outputs| && OutputFails(o, tx, outputs, false, i, r)
              else r == Rejected(if Overflows(Values(inputs)) || Overflows(Values(outputs)) then AmountsSumOverflow else ConservationRulesViolated)
  {
    hide Spendable, Conserved;
    r := CheckNumberOfProofs(tx, outputs);
    if r.Rejected? {
      return;
    }
    var gatheredIns := ExtractByProofMap(inputs, tx.inputs);
    if gatheredIns.None? {
      return Rejected(ProofMappedToNotExistingInputOutput);
    }
    var gatheredOuts := ExtractByProofMap(outputs, tx.outputs);
    if gatheredOuts.None? {
      return Rejected(ProofMappedToNotExistingInputOutput);
    }
    r := CheckInputProofs(o, gatheredIns.value);
    if r.Rejected? {
      FailedInput(o, tx, inputs, gatheredIns.value, r);
      return;
    }
    r := CheckOutputProofs(o, gatheredOuts.value, false);
    if r.Rejected? {
      FailedOutput(o, tx, outputs, gatheredOuts.value, false, r);
      return;
    }
    r := CheckConservationRules(Values(inputs), Values(outputs));
  }

  /** Accepts exactly what the kind of the transaction asks for. */
  method CheckTransaction(o: Oracle, tx: Tx) returns (r: Check)
    ensures r == Accepted <==> TxAccepted(o, tx)
  {
    hide IssueAccepted, TransferAccepted, ExitAccepted;
    match tx.kind
    case Issue(minted, a) => r := CheckIssueIsolated(o, tx.bitcoin, minted, a);
    case Transfer(inputs, outputs) => r := CheckProofsIsolated(o, tx.bitcoin, inputs, outputs);
    case Announce(a) => r := if a == TransferOwnership(true) then Rejected(NewOwnerP2TRAddress) else Accepted;
    case SparkExit(outputs) => r := CheckSparkExitIsolated(o, tx.bitcoin, outputs);
  }

  // ---------- the conditions written out

  /** An issue is accepted exactly with as many proofs as outputs without data, all of them
      of the announced token and good for their outputs where those carry no data, when the
      first announcement among the outputs is its own and the amounts add up to it modulo
      2 to the power of 128. */
  lemma IssueConditions(o: Oracle, tx: BitcoinTx, m: ProofMap, a: IssueAnnouncement)
    ensures !IssueAccepted(o, tx, None, a)
    ensures IssueAccepted(o, tx, Some(m), a) <==>
            && (exists i :: 0 <= i < |tx.outputs| && o.announcement(tx.outputs[i]) == Some(a) &&
                            forall j | 0 <= j < i :: o.announcement(tx.outputs[j]).None?)
            && |m| == |set i: nat | i < |tx.outputs| && !tx.outputs[i].isOpReturn|
            && (forall i | 0 <= i < |m| ::
                  && (m[i].1.EmptyReceipt? || m[i].1.inner.token == a.token) && m[i].0 < |tx.outputs|
                  && (tx.outputs[m[i].0].isOpReturn || o.byOutput(m[i].1, tx.outputs[m[i].0])))
            && Sum(Values(m)) % 340282366920938463463374607431768211456 == a.amount
  {
    hide Spendable, SumBy, AmountLimit;
    AmountLimitIs();
    SpendableCount(tx.outputs);
  }

  /** A transfer is accepted exactly with as many output proofs as outputs without data, all
      proofs good and no input burnt, when every token goes out as it comes in. */
  lemma TransferConditions(o: Oracle, tx: BitcoinTx, inputs: ProofMap, outputs: ProofMap)
    ensures TransferAccepted(o, tx, inputs, outputs) <==>
            && |outputs| == |set i: nat | i < |tx.outputs| && !tx.outputs[i].isOpReturn|
            && (forall i | 0 <= i < |inputs| ::
                  && inputs[i].0 < |tx.inputs| && o.byInput(inputs[i].1, tx.inputs[inputs[i].0])
                  && !(inputs[i].1.Sig? && inputs[i].1.innerKey == 0))
            && (forall i | 0 <= i < |outputs| :: outputs[i].0 < |tx.outputs| && o.byOutput(outputs[i].1, tx.outputs[outputs[i].0]))
            && (forall token :: Total(Values(inputs), token) == Total(Values(outputs), token) < 340282366920938463463374607431768211456)
  {
    hide Spendable, SumBy, AmountLimit;
    AmountLimitIs();
    SpendableCount(tx.outputs);
  }

  /** A Spark exit is accepted exactly with as many proofs as outputs without data, all good
      for their outputs where those carry no data. */
  lemma ExitConditions(o: Oracle, tx: BitcoinTx, m: ProofMap)
    ensures ExitAccepted(o, tx, m) <==>
            && |m| == |set i: nat | i < |tx.outputs| && !tx.outputs[i].isOpReturn|
            && (forall i | 0 <= i < |m| ::
                  m[i].0 < |tx.outputs| && (tx.outputs[m[i].0].isOpReturn || o.byOutput(m[i].1, tx.outputs[m[i].0])))
  {
    hide Spendable;
    SpendableCount(tx.outputs);
  }

  // ---------- which outputs have proofs

  ghost function Indexes(m: ProofMap): set<nat> {
    set i | 0 <= i < |m| :: m[i].0
  }

  lemma {:induction false} IndexCount(m: ProofMap)
    ensures |Indexes(m)| == |m|
  {
    if |m| > 0 {
      var n := |m| - 1;
      var rest: ProofMap := m[..n];
      IndexCount(rest);
      IndexesNext(m);
      hide Indexes;
    }
  }

  lemma IndexesNext(m: ProofMap)
    requires |m| > 0
    ensures var n := |m| - 1;
            Indexes(m) == Indexes(m[..n]) + {m[n].0} && m[n].0 !in Indexes(m[..n])
  {
    var n := |m| - 1;
    var rest: ProofMap := m[..n];
    forall x | x in Indexes(m) && x != m[n].0 ensures x in Indexes(rest) {
      var i :| 0 <= i < |m| && m[i].0 == x;
      assert rest[i].0 == x;
    }
    forall x | x in Indexes(rest) ensures x in Indexes(m) && x != m[n].0 {
      var i :| 0 <= i < n && rest[i].0 == x;
      assert m[i].0 == x;
    }
  }

  lemma SameSizeSubset(a: set<nat>, b: set<nat>)
    requires a <= b && |a| == |b|
    ensures a == b
  {
    assert b == a + (b - a);
  }

  /** Where no proof holds for a data output, an accepted transfer has a proof for every
      other output: nothing is spent into an output without one. */
  lemma EveryOutputProved(o: Oracle, tx: BitcoinTx, inputs: ProofMap, outputs: ProofMap, i: nat)
    requires TransferAccepted(o, tx, inputs, outputs) && i < |tx.outputs|
    requires forall p, out: TxOut | out.isOpReturn :: !o.byOutput(p, out)
    ensures tx.outputs[i].isOpReturn <==> forall j | 0 <= j < |outputs| :: outputs[j].0 != i
  {
    hide Conserved, Spendable;
    SpendableCount(tx.outputs);
    IndexCount(outputs);
    SameSizeSubset(Indexes(outputs), SpendableAt(tx.outputs));
    assert i in Indexes(outputs) <==> i in SpendableAt(tx.outputs);
  }

  // ---------- what an accepted issue is worth

  lemma {:induction false} SumOfOneToken(ps: seq<ReceiptProof>, token: Token, other: Token)
    requires OneToken(ps, token) && other != token
    ensures Total(ps, token) == Sum(ps) && Total(ps, other) == 0
  {
    if ps != [] {
      SumOfOneToken(ps[..|ps| - 1], token, other);
    }
  }

  /** An accepted issue mints exactly the announced amount of the announced token
      if and only if the true sum is below the limit. */
  lemma IssueMintsAnnounced(o: Oracle, tx: BitcoinTx, minted: Option<ProofMap>, a: IssueAnnouncement)
    requires IssueAccepted(o, tx, minted, a)
    ensures Total(Values(minted.value), a.token) == a.amount <==> Sum(Values(minted.value)) < AmountLimit()
    ensures forall other | other != a.token :: Total(Values(minted.value), other) == 0
  {
    hide AmountLimit, FirstAnnouncement, OutputsHold, Spendable, SumBy;
    var ps := Values(minted.value);
    forall other | other != a.token ensures Total(ps, a.token) == Sum(ps) && Total(ps, other) == 0 {
      SumOfOneToken(ps, a.token, other);
    }
    assert Total(ps, a.token + 1) == 0;
    WrapsUnlessBelow(Sum(ps), AmountLimit());
  }

  /** Two proofs that together reach 2 to the power of 128 are an accepted issue of nothing. */
  lemma WrappedIssue(token: Token)
    ensures var most := 340282366920938463463374607431768211455;
            var minted: ProofMap := [(0, Other(Receipt(token, most), 0)), (1, Other(Receipt(token, 1), 0))];
            var tx := BitcoinTx(7, [], [TxOut(false, 0), TxOut(false, 1), TxOut(true, 2)]);
            var a := IssueAnnouncement(token, 0);
            var o := Oracle((p, i) => true, (p, out) => true, (out: TxOut) => if out.isOpReturn then Some(a) else None);
            IssueAccepted(o, tx, Some(minted), a) && Total(Values(minted), token) == most + 1
  {
    hide AmountLimit, Spendable, SumBy;
    AmountLimitIs();
    var most := 340282366920938463463374607431768211455;
    var p, q := Other(Receipt(token, most), 0), Other(Receipt(token, 1), 0);
    var minted: ProofMap := [(0, p), (1, q)];
    assert Values(minted) == [p, q];
    TwoProofs(p, q, token);
    TwoSpendable(TxOut(false, 0), TxOut(false, 1), TxOut(true, 2));
    var a := IssueAnnouncement(token, 0);
    var outputs := [TxOut(false, 0), TxOut(false, 1), TxOut(true, 2)];
    var o := Oracle((p, i) => true, (p, out) => true, (out: TxOut) => if out.isOpReturn then Some(a) else None);
    assert o.announcement(outputs[2]) == Some(a);
  }

  lemma TwoProofs(p: ReceiptProof, q: ReceiptProof, token: Token)
    ensures Sum([p, q]) == p.Of().amount + q.Of().amount
    ensures Total([p, q], token) == Amount(p, token) + Amount(q, token)
  {
    assert [p, q] == [] + [p] + [q];
    SumAppend(AmountIn(), [], p);
    SumAppend(AmountIn(), [] + [p], q);
    SumAppend(AmountOf(token), [], p);
    SumAppend(AmountOf(token), [] + [p], q);
  }

  lemma TwoSpendable(a: TxOut, b: TxOut, c: TxOut)
    requires !a.isOpReturn && !b.isOpReturn && c.isOpReturn
    ensures |Spendable([a, b, c])| == 2
  {
    assert [a, b, c][..2] == [a, b] && [a, b][..1] == [a] && [a][..0] == [];
    assert Spendable([a, b]) == Spendable([a]) + [b];
  }
}
