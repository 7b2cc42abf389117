/** What becomes of each transaction of a batch, and of those that waited before. */
module AttachOutcome {
  import opened AttachSpec
  import opened AttachDrain
  import opened AttachMirror

  /** What a transfer leads to. Its parents are those of the inputs that its proofs name,
      empty receipts apart. It is attached at once exactly when it waits for nothing from
      before and each of them is attached or stored; otherwise it waits, from now on, for
      those that are not. */
  lemma TransferMeans(s: Pass, tx: Tx, storage: set<Txid>, now: nat)
    requires tx.kind.Transfer?
    ensures var inputs, proofs, next := tx.kind.inputs, tx.kind.proofs, PassStep(s, tx, storage, now);
            var ready := Get(s.graph.deps, tx.id) == {} &&
                         forall i | 0 <= i < |proofs| && !proofs[i].1 && proofs[i].0 < |inputs| ::
                           inputs[proofs[i].0] in s.attached || inputs[proofs[i].0] in storage;
            && (ready ==> && next.attached == s.attached + [tx.id] && next.graph.stored == s.graph.stored
                          && next.queued == s.queued + Get(s.graph.inverseDeps, tx.id)
                          && next.graph.deps == s.graph.deps - {tx.id})
            && (!ready ==> && next.attached == s.attached && next.queued == s.queued
                           && next.graph.stored == s.graph.stored[tx.id := (tx, now)] && tx.id in next.graph.deps
                           && next.graph.deps - {tx.id} == s.graph.deps - {tx.id}
                           && (forall p :: p in next.graph.deps[tx.id] <==>
                                 || p in Get(s.graph.deps, tx.id)
                                 || (&& p !in s.attached && p !in storage
                                     && exists i :: 0 <= i < |proofs| && !proofs[i].1 && proofs[i].0 < |inputs| && inputs[proofs[i].0] == p)))
  {
    var inputs, proofs := tx.kind.inputs, tx.kind.proofs;
    var missing := ProofParents(inputs, proofs) - (Ids(s.attached) + storage);
    forall i | 0 <= i < |proofs| && !proofs[i].1 && proofs[i].0 < |inputs|
      ensures inputs[proofs[i].0] in missing <==> inputs[proofs[i].0] !in s.attached && inputs[proofs[i].0] !in storage {
      assert inputs[proofs[i].0] in ProofParents(inputs, proofs);
    }
    if missing == {} && tx.id in s.graph.deps {
      assert s.graph.deps == s.graph.deps[tx.id := s.graph.deps[tx.id]];
    }
  }

  /** An issue and a Spark exit are attached at once, an announcement never. Only the
      dependents of an issue are looked at again. */
  lemma OthersMean(s: Pass, tx: Tx, storage: set<Txid>, now: nat)
    requires !tx.kind.Transfer?
    ensures var next := PassStep(s, tx, storage, now);
            && next.graph.stored == s.graph.stored && next.graph.deps == s.graph.deps
            && next.attached == s.attached + (if tx.kind.Announcement? then [] else [tx.id])
            && next.queued == s.queued + (if tx.kind.Issue? then Get(s.graph.inverseDeps, tx.id) else {})
  {
  }

  // ---------- the first pass

  ghost predicate ComesIn(txs: seq<Tx>, c: Txid) {
    exists i :: 0 <= i < |txs| && txs[i].kind.Transfer? && txs[i].id == c
  }

  /** What waits came with the batch, and then waits since now, or has not changed. */
  ghost predicate Since(was: map<Txid, (Tx, nat)>, txs: seq<Tx>, now: nat, stored: map<Txid, (Tx, nat)>) {
    forall c | c in stored ::
      && (ComesIn(txs, c) ==> stored[c].1 == now && stored[c].0 in txs && stored[c].0.kind.Transfer? && stored[c].0.id == c)
      && (!ComesIn(txs, c) ==> c in was && stored[c] == was[c])
  }

  /** Every transaction of the batch but announcements is attached or waits, nothing else
      is attached, and nothing that waited is forgotten. */
  ghost predicate Placed(was: map<Txid, (Tx, nat)>, txs: seq<Tx>, s: Pass) {
    && (forall i | 0 <= i < |txs| ::
          match txs[i].kind
          case Transfer(_, _) => txs[i].id in s.attached || txs[i].id in s.graph.stored
          case Announcement => true
          case _ => txs[i].id in s.attached)
    && (forall id | id in s.attached :: exists i :: 0 <= i < |txs| && !txs[i].kind.Announcement? && txs[i].id == id)
    && was.Keys <= s.graph.stored.Keys
  }

  lemma ComesNext(txs: seq<Tx>, tx: Tx, c: Txid)
    ensures ComesIn(txs + [tx], c) <==> ComesIn(txs, c) || (tx.kind.Transfer? && tx.id == c)
  {
    var all := txs + [tx];
    assert all[|txs|] == tx && forall i | 0 <= i < |txs| :: all[i] == txs[i];
  }

  lemma SinceNext(was: map<Txid, (Tx, nat)>, txs: seq<Tx>, s: Pass, tx: Tx, storage: set<Txid>, now: nat)
    requires PassConsistent(s) && Since(was, txs, now, s.graph.stored)
    ensures Since(was, txs + [tx], now, PassStep(s, tx, storage, now).graph.stored)
  {
    hide ComesIn, PassStep;
    if tx.kind.Transfer? {
      TransferMeans(s, tx, storage, now);
    } else {
      OthersMean(s, tx, storage, now);
    }
    assert tx in txs + [tx] && forall x | x in txs :: x in txs + [tx];
    forall c ensures ComesIn(txs + [tx], c) <==> ComesIn(txs, c) || (tx.kind.Transfer? && tx.id == c) {
      ComesNext(txs, tx, c);
    }
  }

  lemma PlacedNext(was: map<Txid, (Tx, nat)>, txs: seq<Tx>, s: Pass, tx: Tx, storage: set<Txid>, now: nat)
    requires Placed(was, txs, s)
    ensures Placed(was, txs + [tx], PassStep(s, tx, storage, now))
  {
    hide PassStep;
    var next, all := PassStep(s, tx, storage, now), txs + [tx];
    if tx.kind.Transfer? {
      TransferMeans(s, tx, storage, now);
    } else {
      OthersMean(s, tx, storage, now);
    }
    assert forall i | 0 <= i < |txs| :: all[i] == txs[i];
    assert all[|txs|] == tx;
    forall id | id in next.attached ensures exists i :: 0 <= i < |all| && !all[i].kind.Announcement? && all[i].id == id {
      if id in s.attached {
        var i :| 0 <= i < |txs| && !txs[i].kind.Announcement? && txs[i].id == id;
        assert all[i].id == id;
      } else {
        assert all[|txs|].id == id;
      }
    }
  }

  lemma {:induction false} FirstPassOutcome(g: Graph, txs: seq<Tx>, storage: set<Txid>, now: nat)
    requires Consistent(g)
    ensures var s := FirstPass(g, txs, storage, now);
            Since(g.stored, txs, now, s.graph.stored) && Placed(g.stored, txs, s)
  {
    hide PassStep, Since, Placed, PassConsistent, Consistent;
    if |txs| == 0 {
      NothingCame(g, now);
      assert txs == [];
    } else {
      var n := |txs| - 1;
      var s := FirstPass(g, txs[..n], storage, now);
      FirstPassOutcome(g, txs[..n], storage, now);
      FirstPassConsistent(g, txs[..n], storage, now);
      SinceNext(g.stored, txs[..n], s, txs[n], storage, now);
      PlacedNext(g.stored, txs[..n], s, txs[n], storage, now);
      assert txs[..n] + [txs[n]] == txs;
    }
  }

  lemma NothingCame(g: Graph, now: nat)
    ensures Since(g.stored, [], now, g.stored) && Placed(g.stored, [], Pass(g, {}, []))
  {
  }

  // ---------- the whole batch

  /** What becomes of a batch `txs` and of the transactions that waited before. */
  ghost predicate Outcome(was: map<Txid, (Tx, nat)>, txs: seq<Tx>, now: nat, stored: map<Txid, (Tx, nat)>, attached: set<Txid>) {
    && Since(was, txs, now, stored)
    && (forall i | 0 <= i < |txs| ::
          match txs[i].kind
          case Transfer(_, _) => txs[i].id in attached || txs[i].id in stored
          case Announcement => true
          case _ => txs[i].id in attached)
    && (forall id | id in attached :: id in was || exists i :: 0 <= i < |txs| && !txs[i].kind.Announcement? && txs[i].id == id)
    && (forall id | id in was :: id in attached || id in stored)
  }

  lemma BatchOutcome(g: Graph, txs: seq<Tx>, storage: set<Txid>, now: nat, done: set<Txid>)
    requires Consistent(g) && LeastClosed(FirstPass(g, txs, storage, now), storage, done)
    ensures var s := FirstPass(g, txs, storage, now);
            Outcome(g.stored, txs, now, DrainedGraph(s, storage, done).stored, Ids(s.attached) + done)
  {
    var s := FirstPass(g, txs, storage, now);
    FirstPassOutcome(g, txs, storage, now);
    FirstPassConsistent(g, txs, storage, now);
    hide FirstPass, LeastClosed, Closed, Touched;
    forall c | c in done ensures c in s.graph.stored {
      LeastClosedJustified(s, storage, done, c);
    }
    forall id | id in done && id !in g.stored ensures exists i :: 0 <= i < |txs| && !txs[i].kind.Announcement? && txs[i].id == id {
      assert ComesIn(txs, id);
    }
  }
}
