/** Runs of the graph builder: batches and clean-ups in any order. */
module BuilderRuns {
  import opened AttachSpec
  import opened AttachDrain
  import opened AttachMirror
  import opened AttachOutcome
  import opened CleanupSpec

  datatype Op = Attach(txs: seq<Tx>, storage: set<Txid>, at: nat) | Cleanup(now: nat)

  /** One call, with the duration after which a waiting transaction is outdated. */
  ghost predicate Next(g: Graph, duration: nat, op: Op, g': Graph) {
    match op
    case Attach(txs, storage, at) => Batch(g, txs, storage, at, g')
    case Cleanup(now) =>
      if forall c | c in g.stored :: g.stored[c].1 <= now
      then exists removed :: Reachable(g.inverseDeps, Outdated(g.stored, now, duration), removed) && g' == Cleaned(g, removed)
      else g' == g
  }

  ghost predicate Run(gs: seq<Graph>, duration: nat, ops: seq<Op>) {
    && |gs| == |ops| + 1 && Consistent(gs[0])
    && forall i | 0 <= i < |ops| :: Next(gs[i], duration, ops[i], gs[i + 1])
  }

  /** The call attaches the waiting transaction: everything it waits for is attached
      with it or stored. */
  ghost predicate Attaches(g: Graph, op: Op, c: Txid) {
    op.Attach? &&
    var s := FirstPass(g, op.txs, op.storage, op.at);
    exists done :: LeastClosed(s, op.storage, done) && c in done && c in s.graph.deps &&
                   s.graph.deps[c] <= Ids(s.attached) + done + op.storage
  }

  /** The call has the transaction among its transfers again. */
  ghost predicate ComesAgain(op: Op, c: Txid) {
    op.Attach? && ComesIn(op.txs, c)
  }

  /** A clean-up removes the transaction for the sake of one that came earlier. */
  ghost predicate FallsWith(g: Graph, duration: nat, op: Op, c: Txid, since: nat) {
    op.Cleanup? && exists r :: r in g.stored && g.stored[r].1 < since && op.now - g.stored[r].1 > duration && Leads(g.inverseDeps, r, c)
  }

  lemma NextConsistent(g: Graph, duration: nat, op: Op, g': Graph)
    requires Consistent(g) && Next(g, duration, op, g')
    ensures Consistent(g')
  {
    hide Consistent, FirstPass, LeastClosed, DrainedGraph, Cleaned;
    match op
    case Attach(txs, storage, at) =>
      var s := FirstPass(g, txs, storage, at);
      var done :| LeastClosed(s, storage, done) && g' == DrainedGraph(s, storage, done);
      FirstPassConsistent(g, txs, storage, at);
      DrainedConsistent(s, storage, done);
    case Cleanup(now) =>
      if removed :| Reachable(g.inverseDeps, Outdated(g.stored, now, duration), removed) && g' == Cleaned(g, removed) {
        CleanedConsistent(g, removed);
      }
  }

  /** The graph is consistent for the least closed set, however it was found. */
  lemma DrainedConsistent(s: Pass, storage: set<Txid>, done: set<Txid>)
    requires PassConsistent(s) && LeastClosed(s, storage, done)
    ensures Consistent(DrainedGraph(s, storage, done))
  {
    hide Touched;
    var g := DrainedGraph(s, storage, done);
    forall c | c in g.deps ensures g.deps[c] != {} {
      NothingLeft(s.graph.deps[c], Ids(s.attached) + done + storage);
    }
    forall c, p | c in g.deps && p in g.deps[c] ensures c in Get(g.inverseDeps, p) {
      assert c in s.graph.deps && p in s.graph.deps[c];
      LeftDepends(s, storage, done, c, p);
    }
  }

  lemma NothingLeft(a: set<Txid>, b: set<Txid>)
    ensures a - b == {} <==> a <= b
  {
    if a - b == {} {
      forall x | x in a ensures x in b {
        assert x !in a - b;
      }
    }
  }

  lemma LeftDepends(s: Pass, storage: set<Txid>, done: set<Txid>, c: Txid, p: Txid)
    requires PassConsistent(s) && c in s.graph.deps && p in s.graph.deps[c]
    requires Touched(s, done, c) ==> p !in Ids(s.attached) + done + storage
    ensures p !in done && c in Get(s.graph.inverseDeps, p)
  {
  }

  /** One call: a transaction that waits goes on waiting, since the same time, unless it
      is attached, comes again, or falls with one that came earlier; a clean-up before its
      time is over does nothing else to it. */
  lemma StillWaits(g: Graph, duration: nat, op: Op, g': Graph, c: Txid)
    requires Consistent(g) && Next(g, duration, op, g') && c in g.stored
    requires op.Cleanup? ==> op.now <= g.stored[c].1 + duration
    ensures || (c in g'.stored && g'.stored[c] == g.stored[c])
            || Attaches(g, op, c) || ComesAgain(op, c) || FallsWith(g, duration, op, c, g.stored[c].1)
  {
    hide Consistent, FirstPass, LeastClosed, Cleaned, Leads, Reachable;
    match op
    case Attach(txs, storage, at) =>
      var s := FirstPass(g, txs, storage, at);
      var done :| LeastClosed(s, storage, done) && g' == DrainedGraph(s, storage, done);
      FirstPassOutcome(g, txs, storage, at);
      if c in done {
        LeastClosedJustified(s, storage, done, c);
      }
    case Cleanup(now) =>
      if removed :| Reachable(g.inverseDeps, Outdated(g.stored, now, duration), removed) && g' == Cleaned(g, removed) {
        RemovedExactly(g, now, duration, removed);
      }
  }

  lemma {:induction false} RunConsistent(gs: seq<Graph>, duration: nat, ops: seq<Op>, i: nat)
    requires Run(gs, duration, ops) && i < |gs|
    ensures Consistent(gs[i])
  {
    hide Consistent, Next;
    if i > 0 {
      RunConsistent(gs, duration, ops, i - 1);
      NextConsistent(gs[i - 1], duration, ops[i - 1], gs[i]);
    }
  }

  /** Every run: a transaction that waits since `since` waits, through every batch and every
      clean-up up to that time plus the duration, until it is attached or comes again,
      unless it falls with one that came before it. */
  lemma {:induction false} RunWaits(gs: seq<Graph>, duration: nat, ops: seq<Op>, c: Txid, k: nat)
    requires Run(gs, duration, ops) && c in gs[0].stored && k <= |ops|
    requires forall i | 0 <= i < k && ops[i].Cleanup? :: ops[i].now <= gs[0].stored[c].1 + duration
    ensures var since := gs[0].stored[c].1;
            || (c in gs[k].stored && gs[k].stored[c] == gs[0].stored[c])
            || exists i :: 0 <= i < k &&
                 (Attaches(gs[i], ops[i], c) || ComesAgain(ops[i], c) || FallsWith(gs[i], duration, ops[i], c, since))
  {
    hide Consistent, Next, Attaches, ComesAgain, FallsWith;
    if k > 0 {
      RunWaits(gs, duration, ops, c, k - 1);
      if c in gs[k - 1].stored && gs[k - 1].stored[c] == gs[0].stored[c] {
        RunConsistent(gs, duration, ops, k - 1);
        StillWaits(gs[k - 1], duration, ops[k - 1], gs[k], c);
      }
    }
  }

  /** A transaction that waited longer does not outlast a clean-up. */
  lemma OutdatedFalls(g: Graph, duration: nat, now: nat, g': Graph, c: Txid)
    requires Consistent(g) && Next(g, duration, Cleanup(now), g') && c in g.stored
    requires (forall x | x in g.stored :: g.stored[x].1 <= now) && now > g.stored[c].1 + duration
    ensures c !in g'.stored && c !in g'.deps
  {
    hide Consistent, Cleaned, Leads, Reachable;
    var removed :| Reachable(g.inverseDeps, Outdated(g.stored, now, duration), removed) && g' == Cleaned(g, removed);
    RemovedExactly(g, now, duration, removed);
    LeadsToItself(g.inverseDeps, c);
  }
}
