/** When the two dependency maps are exact inverses of each other. */
module AttachMirror {
  import opened AttachSpec
  import opened AttachDrain
  import opened CleanupSpec

  /** Every inverse entry is backed by a dependency. */
  ghost predicate Mirror(g: Graph) {
    forall p, c | p in g.inverseDeps && c in g.inverseDeps[p] :: c in g.deps && p in g.deps[c]
  }

  ghost predicate Fresh(s: Pass, storage: set<Txid>) {
    forall p | p in s.graph.inverseDeps :: p !in s.attached && p !in storage
  }

  ghost function BatchParents(txs: seq<Tx>): set<Txid> {
    set i, p | 0 <= i < |txs| && p in Parents(txs[i]) :: p
  }

  /** No awaited parent came into storage from outside, and no awaited parent is
      a Spark exit of this batch. */
  ghost predicate Undisturbed(g: Graph, txs: seq<Tx>, storage: set<Txid>) {
    && g.inverseDeps.Keys !! storage
    && (forall i | 0 <= i < |txs| && txs[i].kind.SparkExit? :: txs[i].id !in g.inverseDeps.Keys + BatchParents(txs))
  }

  /** The least closed set holds nothing it does not have to. */
  lemma LeastClosedJustified(s: Pass, storage: set<Txid>, done: set<Txid>, c: Txid)
    requires LeastClosed(s, storage, done) && c in done
    ensures c in s.graph.deps && s.graph.deps[c] <= Ids(s.attached) + done + storage
  {
    if !(c in s.graph.deps && s.graph.deps[c] <= Ids(s.attached) + done + storage) {
      var less := done - {c};
      StillTouched(s, less, done);
      assert Ids(s.attached) + less + storage <= Ids(s.attached) + done + storage;
      assert Closed(s, storage, less);
    }
  }

  /** Only touched transactions are drained. */
  lemma LeastClosedTouched(s: Pass, storage: set<Txid>, done: set<Txid>, c: Txid)
    requires LeastClosed(s, storage, done) && c in done
    ensures Touched(s, done, c)
  {
    if !Touched(s, done, c) {
      var less := done - {c};
      StillTouched(s, less, done);
      assert Ids(s.attached) + less + storage <= Ids(s.attached) + done + storage;
      assert Closed(s, storage, less);
    }
  }

  // ---------- the first pass

  lemma WaitKeepsMirror(s: Pass, id: Txid, parents: set<Txid>)
    requires Mirror(s.graph)
    ensures Mirror(AddParents(s.graph, id, parents))
  {
    var g := AddParents(s.graph, id, parents);
    forall p, c | p in g.inverseDeps && c in g.inverseDeps[p] ensures c in g.deps && p in g.deps[c] {
      if !(p in parents && c == id) {
        assert p in s.graph.inverseDeps && c in s.graph.inverseDeps[p];
      }
    }
  }

  /** A step keeps the maps exact inverses, and what it queues is waiting. */
  lemma StepKeepsMirror(s: Pass, tx: Tx, storage: set<Txid>, now: nat)
    requires PassConsistent(s) && Mirror(s.graph) && s.queued <= s.graph.deps.Keys
    ensures var s' := PassStep(s, tx, storage, now);
            Mirror(s'.graph) && s'.queued <= s'.graph.deps.Keys
  {
    match tx.kind
    case Issue =>
    case Transfer(inputs, proofs) =>
      var parents := ProofParents(inputs, proofs) - (Ids(s.attached) + storage);
      hide PassConsistent, ProofParents;
      WaitKeepsMirror(s, tx.id, parents);
      ReadyWasNotWaiting(s, tx.id, parents);
    case Announcement =>
    case SparkExit =>
  }

  lemma {:induction false} FirstPassKeepsMirror(g: Graph, txs: seq<Tx>, storage: set<Txid>, now: nat)
    requires Consistent(g) && Mirror(g)
    ensures var s := FirstPass(g, txs, storage, now);
            Mirror(s.graph) && s.queued <= s.graph.deps.Keys
  {
    if |txs| > 0 {
      var n := |txs| - 1;
      FirstPassKeepsMirror(g, txs[..n], storage, now);
      FirstPassConsistent(g, txs[..n], storage, now);
      hide PassConsistent, PassStep, Mirror, Consistent;
      StepKeepsMirror(FirstPass(g, txs[..n], storage, now), txs[n], storage, now);
    }
  }

  // ---------- when a batch keeps the maps exact inverses

  /** No parent that is attached or stored still has an entry that lists a touched
      transaction. */
  ghost predicate Unlisted(s: Pass, storage: set<Txid>, done: set<Txid>) {
    forall p, c | p in s.graph.inverseDeps && p !in done && c in s.graph.inverseDeps[p] && Touched(s, done, c) ::
      p !in Ids(s.attached) + storage
  }

  /** After a batch the maps are exact inverses if and only if no known parent
      keeps an entry with a touched transaction. */
  lemma BatchMirrorExactly(g: Graph, txs: seq<Tx>, storage: set<Txid>, now: nat, done: set<Txid>)
    requires Consistent(g) && Mirror(g)
    requires LeastClosed(FirstPass(g, txs, storage, now), storage, done)
    ensures var s := FirstPass(g, txs, storage, now);
            Mirror(DrainedGraph(s, storage, done)) <==> Unlisted(s, storage, done)
  {
    hide FirstPass, LeastClosed, Consistent, Mirror, DrainedGraph, Unlisted;
    FirstPassKeepsMirror(g, txs, storage, now);
    var s := FirstPass(g, txs, storage, now);
    if Unlisted(s, storage, done) {
      UnlistedKeepsMirror(s, storage, done);
    }
    if Mirror(DrainedGraph(s, storage, done)) {
      MirrorMeansUnlisted(s, storage, done);
    }
  }

  lemma UnlistedKeepsMirror(s: Pass, storage: set<Txid>, done: set<Txid>)
    requires Mirror(s.graph) && LeastClosed(s, storage, done) && Unlisted(s, storage, done)
    ensures Mirror(DrainedGraph(s, storage, done))
  {
    hide LeastClosed, Touched;
    var g := DrainedGraph(s, storage, done);
    forall p, c | p in g.inverseDeps && c in g.inverseDeps[p] ensures c in g.deps && p in g.deps[c] {
      assert p in s.graph.inverseDeps && c in s.graph.inverseDeps[p] && p !in done;
      if c in done {
        LeastClosedTouched(s, storage, done, c);
        LeastClosedJustified(s, storage, done, c);
      }
    }
  }

  lemma MirrorMeansUnlisted(s: Pass, storage: set<Txid>, done: set<Txid>)
    requires Mirror(DrainedGraph(s, storage, done))
    ensures Unlisted(s, storage, done)
  {
    hide Touched;
    var g := DrainedGraph(s, storage, done);
    forall p, c | p in s.graph.inverseDeps && p !in done && c in s.graph.inverseDeps[p] && Touched(s, done, c)
      ensures p !in Ids(s.attached) + storage
    {
      assert p in g.inverseDeps && c in g.inverseDeps[p];
      assert c in g.deps && p in g.deps[c];
    }
  }

  lemma StepKeepsFresh(s: Pass, tx: Tx, storage: set<Txid>, now: nat)
    requires Fresh(s, storage) && (tx.kind.SparkExit? ==> tx.id !in s.graph.inverseDeps)
    ensures var s' := PassStep(s, tx, storage, now);
            Fresh(s', storage) && s'.graph.inverseDeps.Keys <= s.graph.inverseDeps.Keys + Parents(tx)
  {
  }

  lemma {:induction false} FirstPassKeepsFresh(g: Graph, txs: seq<Tx>, storage: set<Txid>, now: nat, k: nat)
    requires Undisturbed(g, txs, storage) && k <= |txs|
    ensures var s := FirstPass(g, txs[..k], storage, now);
            Fresh(s, storage) && s.graph.inverseDeps.Keys <= g.inverseDeps.Keys + BatchParents(txs)
  {
    if k > 0 {
      FirstPassKeepsFresh(g, txs, storage, now, k - 1);
      assert txs[..k][..k - 1] == txs[..k - 1] && txs[..k][k - 1] == txs[k - 1];
      hide PassStep, Fresh;
      StepKeepsFresh(FirstPass(g, txs[..k - 1], storage, now), txs[k - 1], storage, now);
      assert Parents(txs[k - 1]) <= BatchParents(txs);
    }
  }

  /** What a caller can check before the call: a batch keeps the maps exact inverses
      unless an awaited parent came into storage from outside or is a Spark exit. */
  lemma BatchKeepsMirror(g: Graph, txs: seq<Tx>, storage: set<Txid>, now: nat, done: set<Txid>)
    requires Consistent(g) && Mirror(g) && Undisturbed(g, txs, storage)
    requires LeastClosed(FirstPass(g, txs, storage, now), storage, done)
    ensures Mirror(DrainedGraph(FirstPass(g, txs, storage, now), storage, done))
  {
    hide FirstPass, LeastClosed, Consistent, Mirror, Undisturbed, DrainedGraph, Touched;
    assert txs[..|txs|] == txs;
    FirstPassKeepsFresh(g, txs, storage, now, |txs|);
    BatchMirrorExactly(g, txs, storage, now, done);
  }

  /** Removing outdated transactions keeps the maps exact inverses too. */
  lemma CleanupKeepsMirror(g: Graph, removed: set<Txid>)
    requires Mirror(g)
    ensures Mirror(Cleaned(g, removed))
  {
    var g' := Cleaned(g, removed);
    forall p, c | p in g'.inverseDeps && c in g'.inverseDeps[p] ensures c in g'.deps && p in g'.deps[c] {
      assert c in Remaining(g, removed, p);
    }
  }

  // ---------- the transactions that are passed over

  /** A queued transaction is passed over if and only if it was drained before or
      was not waiting after the first pass. With the maps exact inverses the
      latter does not occur. */
  lemma PassedOver(g: Graph, txs: seq<Tx>, storage: set<Txid>, now: nat, d: Drain, done: set<Txid>, c: Txid)
    requires Consistent(g) && Progress(FirstPass(g, txs, storage, now), storage, d, done) && c in d.pending
    ensures c !in d.graph.deps <==> c in done || c !in FirstPass(g, txs, storage, now).graph.deps
    ensures Mirror(g) ==> (c !in d.graph.deps <==> c in done)
  {
    hide FirstPass, Consistent, Closed, Pruned, Settled, Mirrored, Untouched;
    var s := FirstPass(g, txs, storage, now);
    if Mirror(g) {
      FirstPassKeepsMirror(g, txs, storage, now);
      assert Touched(s, done, c);
      assert c in s.graph.deps;
    }
  }
}
