/** Removing outdated transactions together with everything that depends on them. */
module CleanupSpec {
  import opened AttachSpec
  import opened AttachTrace

  ghost predicate ClosedUnder(inv: map<Txid, set<Txid>>, ids: set<Txid>) {
    forall p | p in ids :: Get(inv, p) <= ids
  }

  /** `removed` are exactly the ids reachable from `roots` through `inv`. */
  ghost predicate Reachable(inv: map<Txid, set<Txid>>, roots: set<Txid>, removed: set<Txid>) {
    && roots <= removed && ClosedUnder(inv, removed)
    && (forall other: set<Txid> | roots <= other && ClosedUnder(inv, other) :: removed <= other)
  }

  /** Consecutive ids are a transaction and one that is recorded as depending on it. */
  ghost predicate Path(inv: map<Txid, set<Txid>>, path: seq<Txid>) {
    path != [] && forall i | 0 <= i < |path| - 1 :: path[i + 1] in Get(inv, path[i])
  }

  ghost predicate Leads(inv: map<Txid, set<Txid>>, root: Txid, c: Txid) {
    exists path :: Path(inv, path) && path[0] == root && path[|path| - 1] == c
  }

  lemma {:induction false} PathStays(inv: map<Txid, set<Txid>>, ids: set<Txid>, path: seq<Txid>)
    requires ClosedUnder(inv, ids) && Path(inv, path) && path[0] in ids
    ensures path[|path| - 1] in ids
  {
    if |path| > 1 {
      var k := |path| - 1;
      PathStays(inv, ids, path[..k]);
      assert path[k - 1] in ids && path[k] in Get(inv, path[k - 1]);
    }
  }

  lemma LeadsOn(inv: map<Txid, set<Txid>>, root: Txid, p: Txid, c: Txid)
    requires Leads(inv, root, p) && c in Get(inv, p)
    ensures Leads(inv, root, c)
  {
    var path :| Path(inv, path) && path[0] == root && path[|path| - 1] == p;
    var longer := path + [c];
    forall i | 0 <= i < |longer| - 1 ensures longer[i + 1] in Get(inv, longer[i]) {
      assert longer[i] == path[i];
    }
    assert Path(inv, longer) && longer[0] == root && longer[|longer| - 1] == c;
  }

  lemma LeadsToItself(inv: map<Txid, set<Txid>>, root: Txid)
    ensures Leads(inv, root, root)
  {
    assert Path(inv, [root]) && [root][0] == root;
  }

  lemma LeadsStays(inv: map<Txid, set<Txid>>, ids: set<Txid>, root: Txid, c: Txid)
    requires ClosedUnder(inv, ids) && Leads(inv, root, c) && root in ids
    ensures c in ids
  {
    var path :| Path(inv, path) && path[0] == root && path[|path| - 1] == c;
    PathStays(inv, ids, path);
  }

  /** Exactly the ids at the end of some path are reachable. */
  lemma ReachableByPaths(inv: map<Txid, set<Txid>>, roots: set<Txid>, removed: set<Txid>, c: Txid)
    requires Reachable(inv, roots, removed)
    ensures c in removed <==> exists r :: r in roots && Leads(inv, r, c)
  {
    hide Leads, ClosedUnder;
    if r :| r in roots && Leads(inv, r, c) {
      LeadsStays(inv, removed, r, c);
    }
    var led := Led(inv, roots, removed);
    LedClosed(inv, roots, removed);
    assert removed <= led;
  }

  ghost function Led(inv: map<Txid, set<Txid>>, roots: set<Txid>, ids: set<Txid>): set<Txid> {
    set x | x in ids && exists r :: r in roots && Leads(inv, r, x)
  }

  lemma LedClosed(inv: map<Txid, set<Txid>>, roots: set<Txid>, ids: set<Txid>)
    requires roots <= ids && ClosedUnder(inv, ids)
    ensures roots <= Led(inv, roots, ids) && ClosedUnder(inv, Led(inv, roots, ids))
  {
    hide Leads, Get;
    forall r | r in roots ensures r in Led(inv, roots, ids) {
      LeadsToItself(inv, r);
    }
    forall p, x | p in Led(inv, roots, ids) && x in Get(inv, p) ensures x in Led(inv, roots, ids) {
      var r :| r in roots && Leads(inv, r, p);
      LeadsOn(inv, r, p, x);
    }
  }

  /** The transactions that have been waiting for longer than `duration`. */
  ghost function Outdated(stored: map<Txid, (Tx, nat)>, now: nat, duration: nat): set<Txid> {
    set c | c in stored && stored[c].1 + duration < now
  }

  /** The dependents of `p` that keep their inverse entry. */
  ghost function Remaining(g: Graph, removed: set<Txid>, p: Txid): set<Txid> {
    set c | c in Get(g.inverseDeps, p) && !(c in removed && p in Get(g.deps, c))
  }

  ghost function Cleaned(g: Graph, removed: set<Txid>): Graph {
    Graph(map p | p in g.inverseDeps && p !in removed && Remaining(g, removed, p) != {} :: Remaining(g, removed, p),
          g.deps - removed, g.stored - removed)
  }

  /** The inverse map after `c` was taken out of the entries of `parents`. */
  function DropFrom(inv: map<Txid, set<Txid>>, c: Txid, parents: set<Txid>): map<Txid, set<Txid>> {
    map p | p in inv && !(p in parents && inv[p] - {c} == {}) :: if p in parents then inv[p] - {c} else inv[p]
  }

  lemma DropFromStep(inv: map<Txid, set<Txid>>, c: Txid, parents: set<Txid>, p: Txid)
    requires p !in parents
    ensures var inv' := DropFrom(inv, c, parents);
            && (p !in inv' ==> DropFrom(inv, c, parents + {p}) == inv')
            && (p in inv' ==> DropFrom(inv, c, parents + {p})
                              == if inv'[p] - {c} == {} then inv' - {p} else inv'[p := inv'[p] - {c}])
  {
  }

  lemma CleanedStep(g: Graph, removed: set<Txid>, c: Txid)
    requires NoEmptySets(g.inverseDeps) && c !in removed
    ensures var g' := Cleaned(g, removed);
            Cleaned(g, removed + {c})
            == Graph(DropFrom(g'.inverseDeps, c, Get(g'.deps, c)) - {c}, g'.deps - {c}, g'.stored - {c})
  {
    var g' := Cleaned(g, removed);
    var inv, inv' := DropFrom(g'.inverseDeps, c, Get(g'.deps, c)) - {c}, Cleaned(g, removed + {c}).inverseDeps;
    forall p ensures p in inv <==> p in inv' {
      RemainingStep(g, removed, c, p);
    }
    forall p | p in inv ensures inv[p] == inv'[p] {
      RemainingStep(g, removed, c, p);
    }
    assert inv == inv';
  }

  lemma RemainingStep(g: Graph, removed: set<Txid>, c: Txid, p: Txid)
    requires c !in removed
    ensures Get(Cleaned(g, removed).deps, c) == Get(g.deps, c)
    ensures Remaining(g, removed + {c}, p)
         == if p in Get(g.deps, c) then Remaining(g, removed, p) - {c} else Remaining(g, removed, p)
  {
  }

  lemma CleanedNothing(g: Graph)
    requires NoEmptySets(g.inverseDeps)
    ensures Cleaned(g, {}) == g
  {
    forall p | p in g.inverseDeps ensures Remaining(g, {}, p) == g.inverseDeps[p] {
    }
    assert Cleaned(g, {}).inverseDeps == g.inverseDeps;
    assert g.deps - {} == g.deps && g.stored - {} == g.stored;
  }

  /** The dependents of a transaction about to be removed are known already or
      still recorded. */
  lemma RecordedDependents(g: Graph, removed: set<Txid>, p: Txid)
    requires p !in removed
    ensures Get(Cleaned(g, removed).inverseDeps, p) <= Get(g.inverseDeps, p)
            <= Get(Cleaned(g, removed).inverseDeps, p) + removed
  {
    assert Get(g.inverseDeps, p) <= Remaining(g, removed, p) + removed;
  }

  /** No surviving transaction depends on a removed one. */
  lemma SurvivorsIndependent(g: Graph, removed: set<Txid>)
    requires Consistent(g) && ClosedUnder(g.inverseDeps, removed)
    ensures forall c | c in Cleaned(g, removed).deps :: g.deps[c] !! removed && Cleaned(g, removed).deps[c] == g.deps[c]
  {
    forall c, p | c in Cleaned(g, removed).deps && p in g.deps[c] ensures p !in removed {
      assert c in Get(g.inverseDeps, p);
    }
  }

  lemma CleanedConsistent(g: Graph, removed: set<Txid>)
    requires Consistent(g) && ClosedUnder(g.inverseDeps, removed)
    ensures Consistent(Cleaned(g, removed))
  {
    SurvivorsIndependent(g, removed);
    var g' := Cleaned(g, removed);
    forall c, p | c in g'.deps && p in g'.deps[c] ensures c in Get(g'.inverseDeps, p) {
      assert c in Remaining(g, removed, p);
    }
  }

  lemma CleanedWaitingSafe(g: Graph, removed: set<Txid>, trace: Trace)
    requires WaitingSafe(g, trace)
    ensures WaitingSafe(Cleaned(g, removed), trace)
  {
    hide Known, Parents;
    assert forall c | c in Cleaned(g, removed).stored :: Get(Cleaned(g, removed).deps, c) == Get(g.deps, c);
  }

  /** What a clean-up removes: what waited too long and what depends on that. */
  lemma RemovedExactly(g: Graph, now: nat, duration: nat, removed: set<Txid>)
    requires Consistent(g) && Reachable(g.inverseDeps, Outdated(g.stored, now, duration), removed)
    ensures var g' := Cleaned(g, removed);
            forall c | c in g.stored ::
              if exists r :: r in g.stored && now - g.stored[r].1 > duration && Leads(g.inverseDeps, r, c)
              then c !in g'.stored && c !in g'.deps
              else c in g'.stored && g'.stored[c] == g.stored[c] && g'.deps[c] == g.deps[c]
  {
    hide Leads, Reachable;
    var roots := Outdated(g.stored, now, duration);
    forall c | c in g.stored
      ensures c in removed <==> exists r :: r in g.stored && now - g.stored[r].1 > duration && Leads(g.inverseDeps, r, c) {
      ReachableByPaths(g.inverseDeps, roots, removed, c);
    }
  }

  /** Cleaning twice is cleaning once. */
  lemma CleanedTwice(g: Graph, first: set<Txid>, second: set<Txid>)
    ensures Cleaned(Cleaned(g, first), second) == Cleaned(g, first + second)
  {
    var g' := Cleaned(g, first);
    var inv, inv' := Cleaned(g', second).inverseDeps, Cleaned(g, first + second).inverseDeps;
    forall p | p !in first + second ensures Remaining(g', second, p) == Remaining(g, first + second, p) {
      forall c ensures c in Remaining(g', second, p) <==> c in Remaining(g, first + second, p) {
        assert c in Get(g'.inverseDeps, p) <==> c in Remaining(g, first, p) && p in g.inverseDeps;
      }
    }
    assert inv.Keys == inv'.Keys by {
      forall p ensures p in inv <==> p in inv' {
        assert Remaining(g, first + second, p) <= Remaining(g, first, p);
      }
    }
    assert inv == inv';
  }

  lemma ReachableTwice(g: Graph, roots: set<Txid>, first: set<Txid>, id: Txid, second: set<Txid>)
    requires Reachable(g.inverseDeps, roots, first)
    requires Reachable(Cleaned(g, first).inverseDeps, {id}, second)
    ensures Reachable(g.inverseDeps, roots + {id}, first + second)
  {
    var inv, inv' := g.inverseDeps, Cleaned(g, first).inverseDeps;
    forall p | p in first + second ensures Get(inv, p) <= first + second {
      if p !in first {
        RecordedDependents(g, first, p);
      }
    }
    forall other: set<Txid> | roots + {id} <= other && ClosedUnder(inv, other) ensures first + second <= other {
      forall p | p in other ensures Get(inv', p) <= other {
        if p !in first {
          RecordedDependents(g, first, p);
        }
      }
      assert roots <= other && {id} <= other && ClosedUnder(inv', other);
    }
  }
}
