/** The token outputs that runs of accepted transactions create and spend. */
module Ledgers {
  import opened Options
  import opened ProofMaps
  import opened Totals
  import opened TokenSums
  import opened IsolatedChecks

  /** The unspent outputs that have a proof, the issues so far and the proofs that
      Spark exits brought in. */
  datatype Ledger = Ledger(unspent: map<OutPoint, ReceiptProof>, issues: seq<IssueAnnouncement>, exited: seq<ReceiptProof>)

  function Announced(token: Token): IssueAnnouncement -> nat {
    (a: IssueAnnouncement) => if a.token == token then a.amount else 0
  }

  function Issued(issues: seq<IssueAnnouncement>, token: Token): nat {
    SumBy(Announced(token), issues)
  }

  // ---------- the total of a set of outputs

  ghost function Held(m: map<OutPoint, ReceiptProof>, token: Token): nat {
    if m == map[] then 0
    else
      var k :| k in m;
      Amount(m[k], token) + Held(m - {k}, token)
  }

  lemma {:induction false} HeldWithout(m: map<OutPoint, ReceiptProof>, k: OutPoint, token: Token)
    requires k in m
    ensures Held(m, token) == Amount(m[k], token) + Held(m - {k}, token)
    decreases |m|
  {
    hide Amount;
    var j :| j in m && Held(m, token) == Amount(m[j], token) + Held(m - {j}, token);
    if j != k {
      HeldWithout(m - {j}, k, token);
      HeldWithout(m - {k}, j, token);
      assert m - {j} - {k} == m - {k} - {j};
    }
  }

  lemma HeldWith(m: map<OutPoint, ReceiptProof>, k: OutPoint, p: ReceiptProof, token: Token)
    requires k !in m
    ensures Held(m[k := p], token) == Held(m, token) + Amount(p, token)
  {
    HeldWithout(m[k := p], k, token);
    assert m[k := p] - {k} == m;
  }

  // ---------- creating and spending

  function Created(m: map<OutPoint, ReceiptProof>, id: Txid, proofs: seq<(nat, ReceiptProof)>): map<OutPoint, ReceiptProof> {
    if proofs == [] then m
    else
      var (vout, p) := proofs[|proofs| - 1];
      Created(m, id, proofs[..|proofs| - 1])[OutPoint(id, vout) := p]
  }

  lemma {:induction false} CreatedKeys(m: map<OutPoint, ReceiptProof>, id: Txid, proofs: seq<(nat, ReceiptProof)>, k: OutPoint)
    ensures k in Created(m, id, proofs) <==> k in m || (k.txid == id && exists i :: 0 <= i < |proofs| && proofs[i].0 == k.vout)
    ensures k in m && k.txid != id ==> Created(m, id, proofs)[k] == m[k]
  {
    if proofs != [] {
      CreatedKeys(m, id, proofs[..|proofs| - 1], k);
    }
  }

  lemma {:induction false} CreatedHeld(m: map<OutPoint, ReceiptProof>, id: Txid, proofs: seq<(nat, ReceiptProof)>, token: Token)
    requires Ascending(proofs) && forall k | k in m :: k.txid != id
    ensures Held(Created(m, id, proofs), token) == Held(m, token) + Total(Values(proofs), token)
  {
    hide Held, Amount;
    if proofs != [] {
      var init, last := proofs[..|proofs| - 1], proofs[|proofs| - 1];
      CreatedHeld(m, id, init, token);
      CreatedKeys(m, id, init, OutPoint(id, last.0));
      HeldWith(Created(m, id, init), OutPoint(id, last.0), last.1, token);
      assert Values(proofs)[..|proofs| - 1] == Values(init);
    }
  }

  ghost function Previous(tx: BitcoinTx): set<OutPoint> {
    set i | 0 <= i < |tx.inputs| :: tx.inputs[i].previous
  }

  ghost function Only(m: map<OutPoint, ReceiptProof>, ks: set<OutPoint>): map<OutPoint, ReceiptProof> {
    map k | k in m && k in ks :: m[k]
  }

  lemma {:induction false} HeldSplit(m: map<OutPoint, ReceiptProof>, ks: set<OutPoint>, token: Token)
    ensures Held(m, token) == Held(m - ks, token) + Held(Only(m, ks), token)
    decreases |m|
  {
    hide Amount;
    if k :| k in m && k in ks {
      HeldSplit(m - {k}, ks, token);
      HeldWithout(m, k, token);
      HeldWithout(Only(m, ks), k, token);
      assert m - {k} - ks == m - ks && Only(m - {k}, ks) == Only(m, ks) - {k};
    } else {
      assert m - ks == m && Only(m, ks) == map[];
    }
  }

  lemma {:induction false} HeldNothing(m: map<OutPoint, ReceiptProof>, token: Token)
    requires forall k | k in m :: Amount(m[k], token) == 0
    ensures Held(m, token) == 0
    decreases |m|
  {
    if k :| k in m {
      HeldWithout(m, k, token);
      HeldNothing(m - {k}, token);
    }
  }

  /** The token outputs that a transaction spends. */
  ghost function SpentOf(l: Ledger, tx: Tx): map<OutPoint, ReceiptProof> {
    Only(l.unspent, Previous(tx.bitcoin))
  }

  // ---------- one transaction

  /** Every transaction removes the outputs it spends and adds its own. */
  ghost function Applied(l: Ledger, tx: Tx): Ledger {
    var rest := l.unspent - Previous(tx.bitcoin);
    var id := tx.bitcoin.id;
    match tx.kind
    case Issue(minted, a) =>
      Ledger(if minted.Some? then Created(rest, id, minted.value) else rest, l.issues + [a], l.exited)
    case Transfer(_, outputs) => l.(unspent := Created(rest, id, outputs))
    case Announce(_) => l.(unspent := rest)
    case SparkExit(outputs) => l.(unspent := Created(rest, id, outputs), exited := l.exited + Values(outputs))
  }

  /** No output of the transaction is there yet. */
  ghost predicate IsNew(l: Ledger, tx: Tx) {
    forall k | k in l.unspent :: k.txid != tx.bitcoin.id
  }

  /** What is unspent is what was announced and what left Spark, token by token. */
  ghost predicate Backed(l: Ledger) {
    forall token :: Held(l.unspent, token) == Issued(l.issues, token) + Total(l.exited, token)
  }

  /** What the transaction claims to bring in with the outputs it spends: what a
      transfer's input proofs carry, and what an issue mints beyond its announcement,
      which is nothing unless its sum reaches the limit. */
  ghost function CarriedIn(tx: Tx, token: Token): int {
    match tx.kind
    case Issue(minted, a) => if minted.Some? then Total(Values(minted.value), token) - Announced(token)(a) else 0
    case Transfer(inputs, _) => Total(Values(inputs), token)
    case Announce(_) => 0
    case SparkExit(_) => 0
  }

  /** It spends exactly what it claims to bring in. */
  ghost predicate Settles(l: Ledger, tx: Tx) {
    forall token :: Held(SpentOf(l, tx), token) == CarriedIn(tx, token)
  }

  /** How an accepted transaction changes what is held, issued and exited. */
  lemma StepChanges(o: Oracle, l: Ledger, tx: Tx, token: Token)
    requires TxAccepted(o, tx) && IsNew(l, tx)
    ensures var next := Applied(l, tx);
            Held(next.unspent, token) + Held(SpentOf(l, tx), token) + Issued(l.issues, token) + Total(l.exited, token) ==
            Held(l.unspent, token) + CarriedIn(tx, token) + Issued(next.issues, token) + Total(next.exited, token)
  {
    hide Held, SumBy, Created, Amount, AmountLimit, IssueAccepted, TransferAccepted, ExitAccepted, Only;
    var rest, id := l.unspent - Previous(tx.bitcoin), tx.bitcoin.id;
    HeldSplit(l.unspent, Previous(tx.bitcoin), token);
    match tx.kind
    case Issue(minted, a) =>
      IssueHasProofs(o, tx.bitcoin, minted, a);
      CreatedHeld(rest, id, minted.value, token);
      SumAppend(Announced(token), l.issues, a);
    case Transfer(inputs, outputs) =>
      CreatedHeld(rest, id, outputs, token);
      TransferConserves(o, tx.bitcoin, inputs, outputs, token);
    case Announce(_) =>
    case SparkExit(outputs) =>
      CreatedHeld(rest, id, outputs, token);
      SumConcat(AmountOf(token), l.exited, Values(outputs));
  }

  lemma IssueHasProofs(o: Oracle, tx: BitcoinTx, minted: Option<ProofMap>, a: IssueAnnouncement)
    requires IssueAccepted(o, tx, minted, a)
    ensures minted.Some?
  {
  }

  lemma TransferConserves(o: Oracle, tx: BitcoinTx, inputs: ProofMap, outputs: ProofMap, token: Token)
    requires TransferAccepted(o, tx, inputs, outputs)
    ensures Total(Values(inputs), token) == Total(Values(outputs), token)
  {
    hide SumBy, AmountLimit;
  }

  /** An accepted transaction keeps the ledger backed if and only if it spends, token by
      token, exactly what it claims to bring in. */
  lemma StepBackedExactly(o: Oracle, l: Ledger, tx: Tx)
    requires TxAccepted(o, tx) && IsNew(l, tx) && Backed(l)
    ensures Backed(Applied(l, tx)) <==> Settles(l, tx)
  {
    hide Held, SumBy, Issued, Total, TxAccepted, IsNew, Applied, CarriedIn, SpentOf;
    var next := Applied(l, tx);
    forall token
      ensures Held(next.unspent, token) == Issued(next.issues, token) + Total(next.exited, token)
         <==> Held(SpentOf(l, tx), token) == CarriedIn(tx, token)
    {
      StepChanges(o, l, tx, token);
      assert Held(l.unspent, token) == Issued(l.issues, token) + Total(l.exited, token);
    }
  }

  // ---------- runs

  ghost function RunOf(l: Ledger, txs: seq<Tx>): Ledger {
    if txs == [] then l else Applied(RunOf(l, txs[..|txs| - 1]), txs[|txs| - 1])
  }

  /** Every transaction of the run is accepted, and new when its turn comes. */
  ghost predicate Accepted(o: Oracle, l: Ledger, txs: seq<Tx>) {
    forall i | 0 <= i < |txs| :: TxAccepted(o, txs[i]) && IsNew(RunOf(l, txs[..i]), txs[i])
  }

  ghost predicate BackedThroughout(l: Ledger, txs: seq<Tx>) {
    forall i | 0 <= i <= |txs| :: Backed(RunOf(l, txs[..i]))
  }

  ghost predicate AllSettle(l: Ledger, txs: seq<Tx>) {
    forall i | 0 <= i < |txs| :: Settles(RunOf(l, txs[..i]), txs[i])
  }

  /** A run of accepted transactions keeps the ledger backed throughout if and only if
      every one of them spends exactly what it claims to bring in. */
  lemma {:induction false} RunBackedExactly(o: Oracle, l: Ledger, txs: seq<Tx>)
    requires Backed(l) && Accepted(o, l, txs)
    ensures BackedThroughout(l, txs) <==> AllSettle(l, txs)
  {
    hide Backed, Settles, TxAccepted, IsNew, Applied;
    if txs == [] {
      assert forall i | 0 <= i <= |txs| :: txs[..i] == txs;
    } else {
      var n := |txs| - 1;
      var init := txs[..n];
      assert forall i | 0 <= i <= n :: init[..i] == txs[..i];
      RunBackedExactly(o, l, init);
      assert txs[..n + 1] == txs;
      assert BackedThroughout(l, txs) <==> BackedThroughout(l, init) && Backed(RunOf(l, txs)) by { BackedOneMore(l, txs); }
      if BackedThroughout(l, init) {
        assert Backed(RunOf(l, init[..n]));
        StepBackedExactly(o, RunOf(l, init), txs[n]);
      }
    }
  }

  lemma BackedOneMore(l: Ledger, txs: seq<Tx>)
    requires txs != []
    ensures BackedThroughout(l, txs) <==> BackedThroughout(l, txs[..|txs| - 1]) && Backed(RunOf(l, txs))
  {
    hide Backed, RunOf;
    var n := |txs| - 1;
    assert forall i | 0 <= i <= n :: txs[..n][..i] == txs[..i];
    assert txs[..n + 1] == txs;
  }

  // ---------- what a caller can check

  /** Every token output that is spent has its own proof among a transfer's input
      proofs. Outputs with an empty receipt need none. */
  ghost predicate SpentListed(l: Ledger, tx: Tx) {
    forall k | 0 <= k < |tx.bitcoin.inputs| && IsToken(l, tx.bitcoin.inputs[k].previous) ::
      && tx.kind.Transfer?
      && exists i :: 0 <= i < |tx.kind.inputProofs| && tx.kind.inputProofs[i] == (k, l.unspent[tx.bitcoin.inputs[k].previous])
  }

  ghost predicate IsToken(l: Ledger, k: OutPoint) {
    k in l.unspent && !l.unspent[k].EmptyReceipt?
  }

  /** The input proofs that are not empty receipts are those of outputs it spends, and it
      spends no output twice. */
  ghost predicate ProofsSpent(l: Ledger, tx: BitcoinTx, inputs: ProofMap) {
    && (forall i, j | 0 <= i < j < |tx.inputs| :: tx.inputs[i].previous != tx.inputs[j].previous)
    && (forall i | 0 <= i < |inputs| && !inputs[i].1.EmptyReceipt? ::
          && inputs[i].0 < |tx.inputs|
          && tx.inputs[inputs[i].0].previous in l.unspent && l.unspent[tx.inputs[inputs[i].0].previous] == inputs[i].1)
  }

  /** The transaction is accepted and new, an issue's sum is below the limit, and the
      token outputs it spends are those of a transfer's input proofs. */
  ghost predicate Admissible(o: Oracle, l: Ledger, tx: Tx) {
    && TxAccepted(o, tx) && IsNew(l, tx) && SpentListed(l, tx)
    && (match tx.kind
        case Issue(minted, _) => minted.Some? && Sum(Values(minted.value)) < AmountLimit()
        case Transfer(inputs, _) => ProofsSpent(l, tx.bitcoin, inputs)
        case Announce(_) => true
        case SparkExit(_) => true)
  }

  /** The outputs whose proofs are among the first `n`, empty receipts apart. */
  ghost function ListedBy(tx: BitcoinTx, inputs: seq<(nat, ReceiptProof)>): set<OutPoint> {
    set i | 0 <= i < |inputs| && !inputs[i].1.EmptyReceipt? && inputs[i].0 < |tx.inputs| :: tx.inputs[inputs[i].0].previous
  }

  lemma {:induction false} ListedHeld(l: Ledger, tx: BitcoinTx, inputs: ProofMap, n: nat, token: Token)
    requires ProofsSpent(l, tx, inputs) && n <= |inputs|
    ensures Held(Only(l.unspent, ListedBy(tx, inputs[..n])), token) == Total(Values(inputs[..n]), token)
    decreases n
  {
    if n == 0 {
      assert Only(l.unspent, ListedBy(tx, inputs[..0])) == map[];
    } else {
      ListedHeld(l, tx, inputs, n - 1, token);
      var before, p := ListedBy(tx, inputs[..n - 1]), inputs[n - 1].1;
      assert inputs[..n] == inputs[..n - 1] + [inputs[n - 1]];
      assert Values(inputs[..n]) == Values(inputs[..n - 1]) + [p];
      SumAppend(AmountOf(token), Values(inputs[..n - 1]), p);
      if p.EmptyReceipt? {
        ListedSame(tx, inputs, n);
      } else {
        ListedNext(l, tx, inputs, n);
        var k := tx.inputs[inputs[n - 1].0].previous;
        HeldWith(Only(l.unspent, before), k, p, token);
      }
    }
  }

  lemma ListedSame(tx: BitcoinTx, inputs: ProofMap, n: nat)
    requires 0 < n <= |inputs| && inputs[n - 1].1.EmptyReceipt?
    ensures ListedBy(tx, inputs[..n]) == ListedBy(tx, inputs[..n - 1])
  {
    assert forall i | 0 <= i < n - 1 :: inputs[..n][i] == inputs[..n - 1][i];
  }

  lemma ListedNext(l: Ledger, tx: BitcoinTx, inputs: ProofMap, n: nat)
    requires ProofsSpent(l, tx, inputs) && 0 < n <= |inputs| && !inputs[n - 1].1.EmptyReceipt?
    ensures var k := tx.inputs[inputs[n - 1].0].previous;
            var before := ListedBy(tx, inputs[..n - 1]);
            k !in before && ListedBy(tx, inputs[..n]) == before + {k} &&
            Only(l.unspent, before + {k}) == Only(l.unspent, before)[k := inputs[n - 1].1]
  {
    var k := tx.inputs[inputs[n - 1].0].previous;
    var before := ListedBy(tx, inputs[..n - 1]);
    assert forall i | 0 <= i < n - 1 :: inputs[..n][i] == inputs[..n - 1][i] == inputs[i];
    assert inputs[..n][n - 1] == inputs[n - 1];
    assert forall x | x in before :: x in ListedBy(tx, inputs[..n]);
  }

  /** What a transfer spends is what its input proofs carry, and what it spends unlisted. */
  lemma SpentHeld(l: Ledger, tx: Tx, token: Token)
    requires tx.kind.Transfer? && ProofsSpent(l, tx.bitcoin, tx.kind.inputProofs)
    ensures Held(SpentOf(l, tx), token) ==
            Total(Values(tx.kind.inputProofs), token) + Held(SpentOf(l, tx) - ListedBy(tx.bitcoin, tx.kind.inputProofs), token)
  {
    hide Held, SumBy, Amount;
    var inputs := tx.kind.inputProofs;
    var listed := ListedBy(tx.bitcoin, inputs);
    ListedHeld(l, tx.bitcoin, inputs, |inputs|, token);
    assert inputs[..|inputs|] == inputs;
    HeldSplit(SpentOf(l, tx), listed, token);
    assert Only(SpentOf(l, tx), listed) == Only(l.unspent, listed);
  }

  lemma AdmissibleSettles(o: Oracle, l: Ledger, tx: Tx)
    requires Admissible(o, l, tx)
    ensures Settles(l, tx)
  {
    hide Held, SumBy, TxAccepted, IssueAccepted, AmountLimit;
    forall token ensures Held(SpentOf(l, tx), token) == CarriedIn(tx, token) {
      match tx.kind
      case Issue(minted, a) =>
        assert IssueAccepted(o, tx.bitcoin, minted, a) by { IssueIsAccepted(o, tx); }
        IssueMintsAnnounced(o, tx.bitcoin, minted, a);
        NoTokensSpent(l, tx, token);
      case Transfer(inputs, _) =>
        SpentHeld(l, tx, token);
        NothingUnlisted(l, tx, token);
      case Announce(_) => NoTokensSpent(l, tx, token);
      case SparkExit(_) => NoTokensSpent(l, tx, token);
    }
  }

  lemma IssueIsAccepted(o: Oracle, tx: Tx)
    requires TxAccepted(o, tx) && tx.kind.Issue?
    ensures IssueAccepted(o, tx.bitcoin, tx.kind.minted, tx.kind.announcement)
  {
  }

  lemma NoTokensSpent(l: Ledger, tx: Tx, token: Token)
    requires SpentListed(l, tx) && !tx.kind.Transfer?
    ensures Held(SpentOf(l, tx), token) == 0
  {
    HeldNothing(SpentOf(l, tx), token);
  }

  lemma NothingUnlisted(l: Ledger, tx: Tx, token: Token)
    requires SpentListed(l, tx) && tx.kind.Transfer?
    ensures Held(SpentOf(l, tx) - ListedBy(tx.bitcoin, tx.kind.inputProofs), token) == 0
  {
    var inputs := tx.kind.inputProofs;
    var rest := SpentOf(l, tx) - ListedBy(tx.bitcoin, inputs);
    forall k | k in SpentOf(l, tx) && IsToken(l, k) ensures k in ListedBy(tx.bitcoin, inputs) {
      var j :| 0 <= j < |tx.bitcoin.inputs| && tx.bitcoin.inputs[j].previous == k;
      var i :| 0 <= i < |inputs| && inputs[i] == (j, l.unspent[k]);
    }
    assert forall k | k in rest :: !IsToken(l, k);
    HeldNothing(rest, token);
  }

  /** A burnt output is never spent by an accepted transaction that lists the proofs of
      the token outputs it spends. */
  lemma BurntStays(o: Oracle, l: Ledger, tx: Tx, k: OutPoint)
    requires TxAccepted(o, tx) && IsNew(l, tx) && SpentListed(l, tx) && k in l.unspent && l.unspent[k].IsBurn()
    ensures k in Applied(l, tx).unspent && Applied(l, tx).unspent[k] == l.unspent[k]
  {
    hide Created, IssueAccepted, ExitAccepted, AmountLimit, Sum, Conserved;
    var rest := l.unspent - Previous(tx.bitcoin);
    BurntUnspent(o, l, tx, k);
    match tx.kind
    case Issue(minted, _) =>
      if minted.Some? {
        CreatedKeys(rest, tx.bitcoin.id, minted.value, k);
      }
    case Transfer(_, outputs) => CreatedKeys(rest, tx.bitcoin.id, outputs, k);
    case Announce(_) =>
    case SparkExit(outputs) => CreatedKeys(rest, tx.bitcoin.id, outputs, k);
  }

  lemma BurntUnspent(o: Oracle, l: Ledger, tx: Tx, k: OutPoint)
    requires TxAccepted(o, tx) && SpentListed(l, tx) && k in l.unspent && l.unspent[k].IsBurn()
    ensures k !in Previous(tx.bitcoin)
  {
    hide IssueAccepted, ExitAccepted, Conserved;
    assert IsToken(l, k);
    forall j | 0 <= j < |tx.bitcoin.inputs| ensures tx.bitcoin.inputs[j].previous != k {
    }
  }

  ghost predicate AllAdmissible(o: Oracle, l: Ledger, txs: seq<Tx>) {
    forall i | 0 <= i < |txs| :: Admissible(o, RunOf(l, txs[..i]), txs[i])
  }

  /** Over every run of admissible transactions, what is unspent of each token is what was
      announced and what left Spark, and every burnt output is still there. */
  lemma {:induction false} RunsConserve(o: Oracle, l: Ledger, txs: seq<Tx>)
    requires Backed(l) && AllAdmissible(o, l, txs)
    ensures BackedThroughout(l, txs) && Backed(RunOf(l, txs))
    ensures forall k | k in l.unspent && l.unspent[k].IsBurn() ::
              k in RunOf(l, txs).unspent && RunOf(l, txs).unspent[k] == l.unspent[k]
  {
    assert Accepted(o, l, txs) by { hide TxAccepted, IsNew, RunOf, SpentListed, ProofsSpent, AmountLimit; }
    hide Backed, Admissible, Settles, Applied, Accepted;
    forall i | 0 <= i < |txs| ensures Settles(RunOf(l, txs[..i]), txs[i]) {
      AdmissibleSettles(o, RunOf(l, txs[..i]), txs[i]);
    }
    RunBackedExactly(o, l, txs);
    assert txs[..|txs|] == txs;
    BurntThroughout(o, l, txs);
  }

  lemma {:induction false} BurntThroughout(o: Oracle, l: Ledger, txs: seq<Tx>)
    requires AllAdmissible(o, l, txs)
    ensures forall k | k in l.unspent && l.unspent[k].IsBurn() ::
              k in RunOf(l, txs).unspent && RunOf(l, txs).unspent[k] == l.unspent[k]
  {
    if txs != [] {
      var init, last := txs[..|txs| - 1], txs[|txs| - 1];
      assert forall i | 0 <= i < |init| :: init[..i] == txs[..i];
      BurntThroughout(o, l, init);
      var before := RunOf(l, init);
      assert Admissible(o, before, last);
      hide Applied, TxAccepted, IsNew, SpentListed, ProofsSpent, AmountLimit;
      forall k | k in l.unspent && l.unspent[k].IsBurn()
        ensures k in Applied(before, last).unspent && Applied(before, last).unspent[k] == l.unspent[k] {
        BurntStays(o, before, last, k);
      }
    }
  }

  // ---------- transactions that are not admissible

  /** Of a set of outputs, one with a positive amount is held. */
  lemma HeldAtLeast(m: map<OutPoint, ReceiptProof>, k: OutPoint)
    requires k in m && m[k].Of().amount > 0
    ensures Held(m, m[k].Of().token) > 0
  {
    HeldWithout(m, k, m[k].Of().token);
  }

  /** Every accepted transfer that does not list the proof of an output with tokens that
      it spends leaves the ledger unbacked. */
  lemma UnlistedInputLosesTokens(o: Oracle, l: Ledger, tx: Tx, k: OutPoint)
    requires TxAccepted(o, tx) && IsNew(l, tx) && Backed(l)
    requires tx.kind.Transfer? && ProofsSpent(l, tx.bitcoin, tx.kind.inputProofs)
    requires k in SpentOf(l, tx) && l.unspent[k].Of().amount > 0 && k !in ListedBy(tx.bitcoin, tx.kind.inputProofs)
    ensures !Backed(Applied(l, tx))
  {
    hide Held, SumBy, Backed, TxAccepted, IsNew, Applied, ProofsSpent;
    var token := l.unspent[k].Of().token;
    SpentHeld(l, tx, token);
    HeldAtLeast(SpentOf(l, tx) - ListedBy(tx.bitcoin, tx.kind.inputProofs), k);
    StepBackedExactly(o, l, tx);
    assert Held(SpentOf(l, tx), token) != CarriedIn(tx, token);
  }

  /** So does every accepted announcement or Spark exit that spends one. */
  lemma AnnouncementLosesTokens(o: Oracle, l: Ledger, tx: Tx, k: OutPoint)
    requires TxAccepted(o, tx) && IsNew(l, tx) && Backed(l)
    requires (tx.kind.Announce? || tx.kind.SparkExit?) && k in SpentOf(l, tx) && l.unspent[k].Of().amount > 0
    ensures !Backed(Applied(l, tx))
  {
    hide Held, SumBy, Backed, TxAccepted, IsNew, Applied;
    var token := l.unspent[k].Of().token;
    HeldAtLeast(SpentOf(l, tx), k);
    StepBackedExactly(o, l, tx);
    assert Held(SpentOf(l, tx), token) != CarriedIn(tx, token);
  }

  /** A ledger with one issued output. */
  ghost function OneIssued(k: OutPoint, a: IssueAnnouncement): Ledger {
    Ledger(map[k := Other(Receipt(a.token, a.amount), 0)], [a], [])
  }

  lemma OneIssuedBacked(k: OutPoint, a: IssueAnnouncement)
    ensures Backed(OneIssued(k, a))
  {
    var l := OneIssued(k, a);
    forall token ensures Held(l.unspent, token) == Issued(l.issues, token) + Total(l.exited, token) {
      HeldWith(map[], k, Other(Receipt(a.token, a.amount), 0), token);
      assert map[][k := Other(Receipt(a.token, a.amount), 0)] == l.unspent;
      assert [] + [a] == [a];
      SumAppend(Announced(token), [], a);
    }
  }

  /** Both occur: a transaction with a data output alone that spends the output. */
  lemma TokensAreLost(o: Oracle, k: OutPoint, a: IssueAnnouncement, id: Txid)
    requires a.amount > 0 && id != k.txid
    ensures var bitcoin := BitcoinTx(id, [TxIn(k, 0)], [TxOut(true, 0)]);
            var l, transfer, announcement := OneIssued(k, a), Tx(bitcoin, Transfer([], [])), Tx(bitcoin, Announce(OtherAnnouncement));
            && Backed(l) && TxAccepted(o, transfer) && TxAccepted(o, announcement)
            && !Backed(Applied(l, transfer)) && !Backed(Applied(l, announcement))
  {
    var bitcoin := BitcoinTx(id, [TxIn(k, 0)], [TxOut(true, 0)]);
    var l, transfer, announcement := OneIssued(k, a), Tx(bitcoin, Transfer([], [])), Tx(bitcoin, Announce(OtherAnnouncement));
    OneIssuedBacked(k, a);
    assert TxAccepted(o, transfer) by {
      assert [TxOut(true, 0)][..0] == [];
      assert Spendable(bitcoin.outputs) == [];
      assert Values<nat, ReceiptProof>([]) == [];
    }
    hide Held, SumBy, Backed, Applied, TxAccepted;
    assert bitcoin.inputs[0].previous == k && k in Previous(bitcoin);
    UnlistedInputLosesTokens(o, l, transfer, k);
    assert TxAccepted(o, announcement) by { AnnouncementAccepted(o, announcement); }
    AnnouncementLosesTokens(o, l, announcement, k);
  }

  lemma AnnouncementAccepted(o: Oracle, tx: Tx)
    requires tx.kind == Announce(OtherAnnouncement)
    ensures TxAccepted(o, tx)
  {
  }
}
