/** Runs of batches from the empty graph after which the two dependency maps are
    not inverses, or a queued transaction is passed over. */
module AttachCases {
  import opened AttachSpec
  import opened AttachDrain
  import opened AttachMirror

  ghost function Empty(): Graph {
    Graph(map[], map[], map[])
  }

  /** A transfer of everything from the given parents. */
  function From(id: Txid, parents: seq<Txid>): (tx: Tx) {
    Tx(id, Transfer(parents, seq(|parents|, i => (i, false))))
  }

  lemma FromParents(id: Txid, parents: seq<Txid>)
    ensures Parents(From(id, parents)) == Ids(parents)
  {
    var proofs := seq(|parents|, i => (i, false));
    forall p | p in Ids(parents) ensures p in ProofParents(parents, proofs) {
      var i :| 0 <= i < |parents| && parents[i] == p;
      assert !proofs[i].1 && proofs[i].0 == i;
    }
  }

  /** The graph in which `c` alone waits, for `p` and `q`. */
  ghost function Pair(p: Txid, q: Txid, c: Txid): Graph {
    Graph(map[p := {c}, q := {c}], map[c := {p, q}], map[c := (From(c, [p, q]), 0)])
  }

  /** A transfer whose parents are all unknown waits for them. */
  lemma WaitingStep(g: Graph, id: Txid, parents: seq<Txid>)
    requires parents != [] && id !in g.deps
    ensures PassStep(Pass(g, {}, []), From(id, parents), {}, 0)
         == Pass(AddParents(g, id, Ids(parents)).(stored := g.stored[id := (From(id, parents), 0)]), {}, [])
  {
    FromParents(id, parents);
    hide ProofParents;
    var tx := From(id, parents);
    assert Parents(tx) - (Ids([]) + {}) == Ids(parents);
    assert parents[0] in Ids(parents);
    assert Get(AddParents(g, id, Ids(parents)).deps, id) == Ids(parents);
  }

  lemma PairStep(p: Txid, q: Txid, c: Txid)
    requires p != q
    ensures FirstPass(Empty(), [From(c, [p, q])], {}, 0) == Pass(Pair(p, q, c), {}, [])
  {
    var tx := From(c, [p, q]);
    assert [tx][..0] == [];
    assert FirstPass(Empty(), [tx], {}, 0) == PassStep(Pass(Empty(), {}, []), tx, {}, 0);
    hide From, PassStep, FirstPass;
    WaitingStep(Empty(), c, [p, q]);
    assert Ids([p, q]) == {p, q};
    assert {} + {c} == {c} && {} + {p, q} == {p, q};
    assert AddInverse(map[], c, {p, q}) == map[p := {c}, q := {c}];
    assert AddParents(Empty(), c, {p, q}).deps == map[c := {p, q}];
  }

  /** It is what a first batch with `c` leaves. */
  lemma PairIsReached(p: Txid, q: Txid, c: Txid)
    requires p != q
    ensures Batch(Empty(), [From(c, [p, q])], {}, 0, Pair(p, q, c)) && Consistent(Pair(p, q, c)) && Mirror(Pair(p, q, c))
  {
    PairStep(p, q, c);
    NothingDrained(Empty(), [From(c, [p, q])], {}, 0);
  }

  /** The only waiting transaction is attached, but an entry of a parent whose
      attachment went unnoticed keeps it. */
  lemma StaleEntry(s: Pass, storage: set<Txid>, q: Txid, c: Txid)
    requires s.graph.deps.Keys == s.graph.stored.Keys == {c} && c in s.queued && s.graph.deps[c] <= Ids(s.attached) + storage
    requires q != c && s.graph.inverseDeps == map[q := {c}]
    ensures LeastClosed(s, storage, {c})
    ensures DrainedGraph(s, storage, {c}) == Stale(q, c) && !Mirror(Stale(q, c))
  {
    assert Touched(s, {c}, c);
    forall other: set<Txid> | Closed(s, storage, other) ensures {c} <= other {
      assert Touched(s, other, c);
      assert s.graph.deps[c] <= Ids(s.attached) + other + storage;
    }
    var g := DrainedGraph(s, storage, {c});
    assert g.inverseDeps == map[q := {c}] && g.deps == map[] && g.stored == map[];
    assert q in g.inverseDeps && c in g.inverseDeps[q] && c !in g.deps;
  }

  /** Nothing waits, but `q` still lists `c`. */
  ghost function Stale(q: Txid, c: Txid): Graph {
    Graph(map[q := {c}], map[], map[])
  }

  /** A parent that came into storage from outside leaves a stale entry behind:
      `c` waits for `p` and `r`, then `p` is issued and `r` is found in storage. */
  lemma OutsideParentBreaksMirror(p: Txid, r: Txid, c: Txid)
    requires p != r && r != c && p != c
    ensures Batch(Empty(), [From(c, [p, r])], {}, 0, Pair(p, r, c)) && Mirror(Pair(p, r, c))
    ensures Batch(Pair(p, r, c), [Tx(p, Issue)], {r}, 0, Stale(r, c)) && !Mirror(Stale(r, c))
  {
    PairIsReached(p, r, c);
    hide LeastClosed, DrainedGraph, Mirror, Consistent, From;
    var g := Pair(p, r, c);
    var s := Attach(Pass(g, {}, []), p);
    assert [Tx(p, Issue)][..0] == [];
    assert FirstPass(g, [Tx(p, Issue)], {r}, 0) == s;
    assert Ids(s.attached) == {p};
    StaleEntry(s, {r}, r, c);
  }

  /** So does a Spark exit parent: `c` waits for `p` and the exit `x`, and both are
      in the next batch. */
  lemma SparkExitBreaksMirror(p: Txid, x: Txid, c: Txid)
    requires p != x && x != c && p != c
    ensures Batch(Empty(), [From(c, [p, x])], {}, 0, Pair(p, x, c)) && Mirror(Pair(p, x, c))
    ensures Batch(Pair(p, x, c), [Tx(x, SparkExit), Tx(p, Issue)], {}, 0, Stale(x, c)) && !Mirror(Stale(x, c))
  {
    PairIsReached(p, x, c);
    hide LeastClosed, DrainedGraph, Mirror, Consistent, From;
    var g := Pair(p, x, c);
    var txs := [Tx(x, SparkExit), Tx(p, Issue)];
    var s := Attach(Pass(g, {}, [x]), p);
    assert txs[..1] == [Tx(x, SparkExit)] && txs[..1][..0] == [];
    assert FirstPass(g, txs[..1], {}, 0) == Pass(g, {}, [x]);
    assert FirstPass(g, txs, {}, 0) == s;
    assert Ids(s.attached) == {x, p};
    StaleEntry(s, {}, x, c);
  }

  // ---------- two ways to be passed over

  /** A stale entry queues a transaction that is not waiting at all. The entry is
      one that `OutsideParentBreaksMirror` reaches. */
  lemma StaleIsPassedOver(r: Txid, c: Txid, storage: set<Txid>)
    ensures var s := FirstPass(Stale(r, c), [Tx(r, Issue)], storage, 0);
            Consistent(Stale(r, c)) && c in s.queued && c !in s.graph.deps && c !in s.graph.stored
  {
    assert [Tx(r, Issue)][..0] == [];
    assert FirstPass(Stale(r, c), [Tx(r, Issue)], storage, 0) == Attach(Pass(Stale(r, c), {}, []), r);
  }

  /** `c` waits for `p` and `q`, and `q` waits for `p`. */
  ghost function Diamond(p: Txid, q: Txid, c: Txid): Graph {
    Graph(map[p := {c, q}, q := {c}], map[c := {p, q}, q := {p}], map[c := (From(c, [p, q]), 0), q := (From(q, [p]), 0)])
  }

  lemma DiamondStep(p: Txid, q: Txid, c: Txid)
    requires p != q && q != c && p != c
    ensures PassStep(Pass(Pair(p, q, c), {}, []), From(q, [p]), {}, 0) == Pass(Diamond(p, q, c), {}, [])
  {
    hide From, PassStep;
    WaitingStep(Pair(p, q, c), q, [p]);
    assert Ids([p]) == {p};
    assert {c} + {q} == {c, q} && {} + {p} == {p};
    var g := AddParents(Pair(p, q, c), q, {p});
    assert g.inverseDeps == Diamond(p, q, c).inverseDeps;
    assert g.deps == Diamond(p, q, c).deps;
  }

  /** It is what a first batch with `c` and `q` leaves. */
  lemma DiamondIsReached(p: Txid, q: Txid, c: Txid)
    requires p != q && q != c && p != c
    ensures Batch(Empty(), [From(c, [p, q]), From(q, [p])], {}, 0, Diamond(p, q, c)) && Consistent(Diamond(p, q, c))
  {
    var txs := [From(c, [p, q]), From(q, [p])];
    assert txs[..1] == [From(c, [p, q])];
    assert FirstPass(Empty(), txs, {}, 0) == PassStep(FirstPass(Empty(), txs[..1], {}, 0), txs[1], {}, 0);
    hide FirstPass, PassStep;
    PairStep(p, q, c);
    DiamondStep(p, q, c);
    NothingDrained(Empty(), txs, {}, 0);
  }

  /** When `p` is then issued and `q` is taken before `c`, `c` is attached in the same
      round and taken once more in the next, when it is not waiting any more. */
  lemma DiamondIsPassedOver(p: Txid, q: Txid, c: Txid)
    requires p != q && q != c && p != c
    ensures var s := FirstPass(Diamond(p, q, c), [Tx(p, Issue)], {}, 0);
            var first := Turn(Drain(s.graph, s.attached, s.queued), {}, q);
            var second := Turn(first, {}, c);
            && s.queued == {c, q} && c in Get(s.graph.inverseDeps, q)
            && second.attached == [p, q, c] && c !in second.graph.deps
  {
    hide From;
    var g := Diamond(p, q, c);
    var s := Attach(Pass(g, {}, []), p);
    assert [Tx(p, Issue)][..0] == [];
    assert FirstPass(g, [Tx(p, Issue)], {}, 0) == s;
    assert Ids(s.attached) == {p};
    var first := Turn(Drain(s.graph, s.attached, s.queued), {}, q);
    assert first.attached == [p, q];
    assert Ids(first.attached) == {p, q};
    assert first.graph.deps[c] == {p, q};
  }
}
