/** The transaction graph as a value, and what one batch of transactions does to
    it. Serves Bitcoin transactions and Spark transactions, whose mint is an
    issue and whose inputs all count. */
module AttachSpec {

  type Txid = nat

  /** A transfer has the parent of each of its inputs, and input proofs in the
      order of their input index, each marked as being an empty receipt or not. */
  datatype Kind = Issue | Transfer(inputs: seq<Txid>, proofs: seq<(nat, bool)>) | Announcement | SparkExit

  datatype Tx = Tx(id: Txid, kind: Kind)

  /** The parents a transfer waits for: those of the inputs that exist and whose
      proof is not an empty receipt. */
  function Parents(tx: Tx): set<Txid> {
    match tx.kind
    case Transfer(inputs, proofs) => ProofParents(inputs, proofs)
    case _ => {}
  }

  function ProofParents(inputs: seq<Txid>, proofs: seq<(nat, bool)>): set<Txid> {
    set i | 0 <= i < |proofs| && !proofs[i].1 && proofs[i].0 < |inputs| :: inputs[proofs[i].0]
  }

  datatype Graph = Graph(inverseDeps: map<Txid, set<Txid>>, deps: map<Txid, set<Txid>>, stored: map<Txid, (Tx, nat)>)

  function Get(m: map<Txid, set<Txid>>, k: Txid): set<Txid> {
    if k in m then m[k] else {}
  }

  ghost function Ids(ids: seq<Txid>): set<Txid> {
    set id | id in ids
  }

  ghost predicate NoEmptySets(m: map<Txid, set<Txid>>) {
    forall k | k in m :: m[k] != {}
  }

  /** Between two calls: the waiting transactions are those with dependencies,
      of which each has at least one, and every dependency is recorded in the
      inverse map too. */
  ghost predicate Consistent(g: Graph) {
    && g.deps.Keys == g.stored.Keys
    && NoEmptySets(g.deps) && NoEmptySets(g.inverseDeps)
    && (forall c, p | c in g.deps && p in g.deps[c] :: c in Get(g.inverseDeps, p))
    && (forall c | c in g.stored :: g.stored[c].0.id == c)
  }

  // ---------- the first pass

  /** The graph, the transactions queued for another look and the attached ids. */
  datatype Pass = Pass(graph: Graph, queued: set<Txid>, attached: seq<Txid>)

  function AddInverse(inv: map<Txid, set<Txid>>, child: Txid, parents: set<Txid>): map<Txid, set<Txid>> {
    map p | p in inv.Keys + parents :: if p in parents then Get(inv, p) + {child} else Get(inv, p)
  }

  /** The graph with `child` waiting for `parents` in addition. */
  function AddParents(g: Graph, child: Txid, parents: set<Txid>): Graph {
    if parents == {} then g else
      g.(inverseDeps := AddInverse(g.inverseDeps, child, parents),
         deps := g.deps[child := Get(g.deps, child) + parents])
  }

  /** Attaches `id`: its dependents are queued and its entry is dropped. */
  function Attach(s: Pass, id: Txid): Pass {
    Pass(s.graph.(inverseDeps := s.graph.inverseDeps - {id}), s.queued + Get(s.graph.inverseDeps, id), s.attached + [id])
  }

  ghost function PassStep(s: Pass, tx: Tx, storage: set<Txid>, now: nat): Pass {
    match tx.kind
    case Issue => Attach(s, tx.id)
    case Transfer(inputs, proofs) =>
      var g := AddParents(s.graph, tx.id, ProofParents(inputs, proofs) - (Ids(s.attached) + storage));
      if Get(g.deps, tx.id) == {} then
        Attach(s.(graph := g.(deps := g.deps - {tx.id})), tx.id)
      else
        s.(graph := g.(stored := g.stored[tx.id := (tx, now)]))
    case Announcement => s
    case SparkExit => s.(attached := s.attached + [tx.id])
  }

  ghost function FirstPass(g: Graph, txs: seq<Tx>, storage: set<Txid>, now: nat): Pass {
    if |txs| == 0 then Pass(g, {}, []) else
      var n := |txs| - 1;
      PassStep(FirstPass(g, txs[..n], storage, now), txs[n], storage, now)
  }

  /** During a call, a missing inverse entry belongs to an attached parent whose
      dependents are queued. */
  ghost predicate PassConsistent(s: Pass) {
    var g := s.graph;
    && g.deps.Keys == g.stored.Keys
    && NoEmptySets(g.deps) && NoEmptySets(g.inverseDeps)
    && (forall c, p | c in g.deps && p in g.deps[c] :: c in Get(g.inverseDeps, p) || (p in s.attached && c in s.queued))
    && (forall c | c in g.stored :: g.stored[c].0.id == c)
  }

  lemma ParentsStep(inputs: seq<Txid>, proofs: seq<(nat, bool)>)
    requires |proofs| > 0
    ensures var n := |proofs| - 1;
            ProofParents(inputs, proofs) == ProofParents(inputs, proofs[..n])
              + (if !proofs[n].1 && proofs[n].0 < |inputs| then {inputs[proofs[n].0]} else {})
  {
    var n := |proofs| - 1;
    assert forall i | 0 <= i < n :: proofs[..n][i] == proofs[i];
    var p := ProofParents(inputs, proofs[..n]) + (if !proofs[n].1 && proofs[n].0 < |inputs| then {inputs[proofs[n].0]} else {});
    forall x | x in ProofParents(inputs, proofs) ensures x in p {
      var i :| 0 <= i < |proofs| && !proofs[i].1 && proofs[i].0 < |inputs| && x == inputs[proofs[i].0];
      if i < n {
        assert !proofs[..n][i].1 && x == inputs[proofs[..n][i].0];
      }
    }
    forall x | x in p ensures x in ProofParents(inputs, proofs) {
      if x in ProofParents(inputs, proofs[..n]) {
        var i :| 0 <= i < n && !proofs[..n][i].1 && proofs[..n][i].0 < |inputs| && x == inputs[proofs[..n][i].0];
        assert !proofs[i].1 && x == inputs[proofs[i].0];
      }
    }
  }

  lemma AttachKeepsConsistent(s: Pass, id: Txid)
    requires PassConsistent(s)
    ensures PassConsistent(Attach(s, id))
  {
    var s' := Attach(s, id);
    forall c, p | c in s'.graph.deps && p in s'.graph.deps[c]
      ensures c in Get(s'.graph.inverseDeps, p) || (p in s'.attached && c in s'.queued)
    {
      assert p in s.attached + [id] <==> p in s.attached || p == id;
    }
  }

  lemma WaitKeepsConsistent(s: Pass, tx: Tx, parents: set<Txid>, now: nat)
    requires PassConsistent(s)
    ensures var g := AddParents(s.graph, tx.id, parents);
            Get(g.deps, tx.id) != {} ==> PassConsistent(s.(graph := g.(stored := g.stored[tx.id := (tx, now)])))
  {
    var g, g0 := AddParents(s.graph, tx.id, parents), s.graph;
    if parents != {} {
      assert g.deps.Keys == g0.deps.Keys + {tx.id};
      forall c, p | c in g.deps && p in g.deps[c]
        ensures c in Get(g.inverseDeps, p) || (p in s.attached && c in s.queued)
      {
        assert Get(g0.inverseDeps, p) <= Get(g.inverseDeps, p);
        if p !in parents || c != tx.id {
          assert c in g0.deps && p in g0.deps[c];
        }
      }
    } else {
      assert tx.id in g.deps ==> g.deps.Keys == g0.deps.Keys + {tx.id};
    }
  }

  /** A transfer that is attached at once was not waiting before. */
  lemma ReadyWasNotWaiting(s: Pass, id: Txid, parents: set<Txid>)
    requires PassConsistent(s)
    ensures var g := AddParents(s.graph, id, parents);
            Get(g.deps, id) == {} ==> g == s.graph && id !in g.deps && g.deps - {id} == g.deps
  {
    if parents == {} {
      assert id !in s.graph.deps ==> s.graph.deps - {id} == s.graph.deps;
    }
  }

  lemma StepKeepsConsistent(s: Pass, tx: Tx, storage: set<Txid>, now: nat)
    requires PassConsistent(s)
    ensures PassConsistent(PassStep(s, tx, storage, now))
  {
    hide PassConsistent, Attach, AddParents, Get;
    match tx.kind
    case Issue => AttachKeepsConsistent(s, tx.id);
    case Transfer(inputs, proofs) =>
      var parents := ProofParents(inputs, proofs) - (Ids(s.attached) + storage);
      WaitKeepsConsistent(s, tx, parents, now);
      ReadyWasNotWaiting(s, tx.id, parents);
      AttachKeepsConsistent(s, tx.id);
    case Announcement =>
    case SparkExit => LongerListKeepsConsistent(s, tx.id);
  }

  lemma LongerListKeepsConsistent(s: Pass, id: Txid)
    requires PassConsistent(s)
    ensures PassConsistent(s.(attached := s.attached + [id]))
  {
    assert forall p | p in s.attached :: p in s.attached + [id];
  }

  lemma {:induction false} FirstPassConsistent(g: Graph, txs: seq<Tx>, storage: set<Txid>, now: nat)
    requires Consistent(g)
    ensures PassConsistent(FirstPass(g, txs, storage, now))
  {
    if |txs| > 0 {
      hide PassStep, PassConsistent;
      var n := |txs| - 1;
      FirstPassConsistent(g, txs[..n], storage, now);
      StepKeepsConsistent(FirstPass(g, txs[..n], storage, now), txs[n], storage, now);
    }
  }
}
