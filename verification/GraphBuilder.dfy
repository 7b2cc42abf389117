/** The graph builder: attaches transactions whose parents are all attached and
    keeps the others waiting. */
module GraphBuilders {
  import opened AttachSpec
  import opened AttachDrain
  import opened AttachTrace
  import opened AttachOutcome
  import opened CleanupSpec
  import BuilderRuns

  class GraphBuilder {
    var inverseDeps: map<Txid, set<Txid>>
    var deps: map<Txid, set<Txid>>
    var storedTxs: map<Txid, (Tx, nat)>
    const outdatedDuration: nat
    ghost var trace: Trace

    function State(): Graph
      reads this
    {
      Graph(inverseDeps, deps, storedTxs)
    }

    /** Holds between any two calls. */
    ghost predicate Valid()
      reads this
    {
      Consistent(State()) && SafeTrace(trace) && WaitingSafe(State(), trace)
    }

    constructor (outdatedDuration: nat)
      ensures Valid() && State() == Graph(map[], map[], map[]) && trace == []
    {
      inverseDeps, deps, storedTxs, trace := map[], map[], map[], [];
      this.outdatedDuration := outdatedDuration;
    }

    /** Collects the ids that are attached or found in storage. */
    method CollectAttached(txids: set<Txid>, attached: seq<Txid>, storage: set<Txid>, ghost before: seq<Txid>) returns (ids: seq<Txid>)
      requires Tracked(State(), trace, before, attached)
      modifies this`trace
      ensures Ids(ids) == txids * (Ids(attached) + storage)
      ensures Ids(ids) <= Known(trace)
      ensures Tracked(State(), trace, before, attached) && old(trace) <= trace
    {
      ids := [];
      var rest := txids;
      KnownAttached(State(), trace, before, attached);
      hide Tracked, Known;
      while rest != {}
        invariant rest <= txids
        invariant Ids(ids) == (txids - rest) * (Ids(attached) + storage)
        invariant Ids(ids) <= Known(trace) && Ids(attached) <= Known(trace)
        invariant Tracked(State(), trace, before, attached) && old(trace) <= trace
        decreases rest
      {
        var id :| id in rest;
        rest := rest - {id};
        if id !in attached && id in storage {
          TrackFound(State(), trace, before, attached, id);
          KnownSnoc(trace, Found(id));
          trace := trace + [Found(id)];
        }
        if id in attached || id in storage {
          IdsSnoc(ids, id);
          ids := ids + [id];
        }
      }
    }

    /** Takes known parents off the dependencies of a transaction. */
    method RemoveAttachedParents(txid: Txid, attached: seq<Txid>, storage: set<Txid>, ghost before: seq<Txid>) returns (isEmpty: bool)
      requires Tracked(State(), trace, before, attached)
      modifies this`deps, this`trace
      ensures txid !in old(deps) ==> isEmpty && deps == old(deps)
      ensures txid in old(deps) ==>
                && deps == old(deps)[txid := old(deps)[txid] - (Ids(attached) + storage)]
                && (isEmpty <==> deps[txid] == {})
                && old(deps)[txid] <= deps[txid] + Known(trace)
      ensures Tracked(State(), trace, before, attached) && old(trace) <= trace
    {
      hide Tracked, Known, Ids;
      if txid !in deps {
        return true;
      }
      var txids := deps[txid];
      var idsToRemove := CollectAttached(txids, attached, storage, before);
      ghost var g, known := State(), trace;
      var left := txids;
      EmptyIds();
      for i := 0 to |idsToRemove|
        invariant State() == g && trace == known
        invariant left == txids - Ids(idsToRemove[..i])
      {
        IdsSnoc(idsToRemove[..i], idsToRemove[i]);
        assert idsToRemove[..i + 1] == idsToRemove[..i] + [idsToRemove[i]];
        left := left - {idsToRemove[i]};
      }
      assert idsToRemove[..|idsToRemove|] == idsToRemove;
      assert left == txids - (Ids(attached) + storage);
      deps := deps[txid := left];
      isEmpty := left == {};
      TrackPruned(g, trace, before, attached, txid, left);
    }

    /** Handles a transfer: it is attached at once if all its parents are
        attached, and waits for the missing ones otherwise. */
    method HandleTransfer(tx: Tx, storage: set<Txid>, now: nat, queued: set<Txid>, attached: seq<Txid>, ghost before: seq<Txid>)
      returns (queued': set<Txid>, attached': seq<Txid>)
      requires tx.kind.Transfer?
      requires Tracked(State(), trace, before, attached) && PassConsistent(Pass(State(), queued, attached))
      modifies this
      ensures Pass(State(), queued', attached') == PassStep(Pass(old(State()), queued, attached), tx, storage, now)
      ensures Tracked(State(), trace, before, attached') && old(trace) <= trace
    {
      hide Tracked, Known, PassConsistent, ProofParents, AddParents;
      ghost var g, known := State(), Ids(attached) + storage;
      var inputs, proofs, childId := tx.kind.inputs, tx.kind.proofs, tx.id;
      queued', attached' := queued, attached;
      NoParents(g, childId, inputs, proofs, known);
      KnownAttached(g, trace, before, attached);
      for i := 0 to |proofs|
        invariant State() == AddParents(g, childId, ProofParents(inputs, proofs[..i]) - known)
        invariant ProofParents(inputs, proofs[..i]) * known <= Known(trace) && Ids(attached) <= Known(trace)
        invariant Tracked(g, trace, before, attached) && old(trace) <= trace
      {
        var (vout, isEmpty) := proofs[i];
        ParentsStep(inputs, proofs[..i + 1]);
        assert proofs[..i + 1][..i] == proofs[..i];
        ghost var ps := ProofParents(inputs, proofs[..i]);
        assert ps + {} == ps;
        if !isEmpty && vout < |inputs| {
          var parent := inputs[vout];
          if parent !in attached && parent in storage {
            TrackFound(g, trace, before, attached, parent);
            KnownSnoc(trace, Found(parent));
            trace := trace + [Found(parent)];
          }
          if parent !in attached && parent !in storage {
            AddParentsStep(g, childId, ps - known, parent);
            assert ps + {parent} - known == ps - known + {parent};
            inverseDeps := inverseDeps[parent := Get(inverseDeps, parent) + {childId}];
            deps := deps[childId := Get(deps, childId) + {parent}];
          } else {
            assert ps + {parent} - known == ps - known;
            assert (ps + {parent}) * known == ps * known + {parent};
          }
        }
      }
      assert proofs[..|proofs|] == proofs;
      ghost var parents := ProofParents(inputs, proofs);
      ReadyWasNotWaiting(Pass(g, queued, attached), childId, parents - known);
      ghost var g' := State();
      if childId !in deps {
        deps := deps[childId := {}];
      }
      if deps[childId] == {} {
        assert parents <= Known(trace) by { ReadyParents(g, childId, parents, known, trace); }
        attached' := attached + [childId];
        deps := deps - {childId};
        assert deps == g'.deps - {childId};
        if childId in inverseDeps {
          queued' := queued + inverseDeps[childId];
          inverseDeps := inverseDeps - {childId};
        } else {
          assert inverseDeps - {childId} == inverseDeps;
        }
        NotStored(Pass(g, queued, attached), childId);
        TrackReport(g, State(), trace, before, attached, tx);
        trace := trace + [Reported(tx)];
      } else {
        storedTxs := storedTxs[childId := (tx, now)];
        TrackWaiting(g, trace, before, attached, tx, parents - known, now);
      }
    }

    /** Looks at every checked transaction once. */
    method AttachChecked(checkedTxs: seq<Tx>, storage: set<Txid>, now: nat) returns (queued: set<Txid>, attached: seq<Txid>)
      requires Valid()
      modifies this
      ensures Pass(State(), queued, attached) == FirstPass(old(State()), checkedTxs, storage, now)
      ensures Tracked(State(), trace, Reports(old(trace)), attached) && old(trace) <= trace
    {
      hide Tracked, Known, PassConsistent, PassStep;
      queued, attached := {}, [];
      ghost var g, before := State(), Reports(trace);
      StartTracking(g, trace);
      for i := 0 to |checkedTxs|
        invariant Pass(State(), queued, attached) == FirstPass(g, checkedTxs[..i], storage, now)
        invariant Tracked(State(), trace, before, attached) && old(trace) <= trace
      {
        var tx := checkedTxs[i];
        ghost var s := Pass(State(), queued, attached);
        assert checkedTxs[..i + 1][..i] == checkedTxs[..i];
        FirstPassConsistent(g, checkedTxs[..i], storage, now);
        if tx.kind.Issue? {
          attached := attached + [tx.id];
          if tx.id in inverseDeps {
            queued := queued + inverseDeps[tx.id];
            inverseDeps := inverseDeps - {tx.id};
          } else {
            assert inverseDeps - {tx.id} == inverseDeps && queued + {} == queued;
          }
          TrackReport(s.graph, State(), trace, before, s.attached, tx);
          trace := trace + [Reported(tx)];
          IssueStep(s, tx, storage, now);
        } else if tx.kind.Transfer? {
          queued, attached := HandleTransfer(tx, storage, now, queued, attached, before);
        } else if tx.kind.SparkExit? {
          attached := attached + [tx.id];
          TrackReport(s.graph, State(), trace, before, s.attached, tx);
          trace := trace + [Reported(tx)];
          OtherStep(s, tx, storage, now);
        } else {
          OtherStep(s, tx, storage, now);
        }
      }
      assert checkedTxs[..|checkedTxs|] == checkedTxs;
    }

    /** Attaches a waiting transaction that waits for nothing any more. */
    method AttachWaiting(txid: Txid, attached0: seq<Txid>, localQueue0: set<Txid>, ghost before: seq<Txid>)
      returns (attached: seq<Txid>, localQueue: set<Txid>)
      requires Tracked(State(), trace, before, attached0) && txid in storedTxs && Get(deps, txid) == {}
      requires storedTxs[txid].0.id == txid
      modifies this
      ensures State() == Graph(old(inverseDeps) - {txid}, old(deps) - {txid}, old(storedTxs) - {txid})
      ensures attached == attached0 + [txid] && localQueue == localQueue0 + Get(old(inverseDeps), txid)
      ensures Tracked(State(), trace, before, attached) && old(trace) <= trace
    {
      hide Tracked, Known, Reports, Ids, Parents;
      var (tx, _) := storedTxs[txid];
      ghost var g := State();
      storedTxs := storedTxs - {txid};
      deps := deps - {txid};
      attached, localQueue := attached0 + [tx.id], localQueue0;
      if txid in inverseDeps {
        localQueue := localQueue + inverseDeps[txid];
        inverseDeps := inverseDeps - {txid};
      } else {
        assert inverseDeps - {txid} == inverseDeps;
      }
      ReadyToReport(g, trace, before, attached0, txid);
      TrackReport(g, State(), trace, before, attached0, tx);
      trace := trace + [Reported(tx)];
    }

    /** Takes another look at a queued transaction. One that is not waiting is
        passed over. */
    method TakeTurn(txid: Txid, attached0: seq<Txid>, localQueue0: set<Txid>, storage: set<Txid>, ghost before: seq<Txid>)
      returns (attached: seq<Txid>, localQueue: set<Txid>)
      requires Tracked(State(), trace, before, attached0) && deps.Keys == storedTxs.Keys
      requires forall c | c in storedTxs :: storedTxs[c].0.id == c
      modifies this
      ensures var d := Turn(Drain(old(State()), attached0, {}), storage, txid);
              State() == d.graph && attached == d.attached && localQueue == localQueue0 + d.pending
      ensures |storedTxs| < |old(storedTxs)| || (|storedTxs| == |old(storedTxs)| && localQueue == localQueue0)
      ensures Tracked(State(), trace, before, attached) && old(trace) <= trace
    {
      hide Tracked, Known, Reports, Ids, Turn, Parents;
      attached, localQueue := attached0, localQueue0;
      TurnCases(State(), attached0, storage, txid);
      assert localQueue0 + {} == localQueue0;
      var isEmpty := RemoveAttachedParents(txid, attached, storage, before);
      if isEmpty && txid in storedTxs {
        WithoutUpdated(old(deps), txid, deps[txid]);
        FewerStored(storedTxs, txid);
        attached, localQueue := AttachWaiting(txid, attached, localQueue, before);
      }
    }

    /** Takes every queued transaction once, in any order. */
    method DrainRound(queuedTxs: set<Txid>, attached0: seq<Txid>, storage: set<Txid>, ghost before: seq<Txid>,
                      ghost s: Pass, ghost done0: set<Txid>)
      returns (attached: seq<Txid>, localQueue: set<Txid>, ghost done: set<Txid>)
      requires Tracked(State(), trace, before, attached0) && PassConsistent(s)
      requires Progress(s, storage, Drain(State(), attached0, queuedTxs), done0)
      modifies this
      ensures Progress(s, storage, Drain(State(), attached, localQueue), done)
      ensures |storedTxs| < |old(storedTxs)| || localQueue == {}
      ensures |storedTxs| <= |old(storedTxs)|
      ensures Tracked(State(), trace, before, attached) && old(trace) <= trace
    {
      hide Tracked, Known, PassConsistent, Progress, Reports, Turn;
      attached, localQueue, done := attached0, {}, done0;
      var rest := queuedTxs;
      assert rest + localQueue == queuedTxs;
      while rest != {}
        invariant Progress(s, storage, Drain(State(), attached, rest + localQueue), done)
        invariant Tracked(State(), trace, before, attached) && old(trace) <= trace
        invariant |storedTxs| < |old(storedTxs)| || (|storedTxs| == |old(storedTxs)| && localQueue == {})
        decreases rest
      {
        var txid :| txid in rest;
        ghost var d := Drain(State(), attached, rest + localQueue);
        KeysAgree(s, storage, d, done);
        TurnWithPending(d, storage, txid, rest, localQueue);
        rest := rest - {txid};
        attached, localQueue := TakeTurn(txid, attached, localQueue, storage, before);
        done := TurnInRound(s, storage, d, done, txid, rest + localQueue);
      }
      assert rest + localQueue == localQueue;
    }

    /** Accepts a batch of checked transactions. Those attached at once and the
        least closed set of waiting ones are reported; the order in which queued
        transactions are looked at makes no difference. */
    method AttachTxs(checkedTxs: seq<Tx>, storage: set<Txid>, now: nat) returns (attached: seq<Txid>, ghost done: set<Txid>)
      requires Valid()
      modifies this
      ensures Valid() && old(trace) <= trace
      ensures var s := FirstPass(old(State()), checkedTxs, storage, now);
              && LeastClosed(s, storage, done)
              && State() == DrainedGraph(s, storage, done)
              && s.attached <= attached && Ids(attached) == Ids(s.attached) + done
      ensures BuilderRuns.Next(old(State()), outdatedDuration, BuilderRuns.Attach(checkedTxs, storage, now), State())
      ensures Reports(trace) == Reports(old(trace)) + attached
      ensures Outcome(old(storedTxs), checkedTxs, now, storedTxs, Ids(attached))
    {
      hide Tracked, Known, PassConsistent, Progress, Reports, FirstPass, Closed, LeastClosed, DrainedGraph, Consistent, Outcome;
      ghost var g, before := State(), Reports(trace);
      var queuedTxs, first := AttachChecked(checkedTxs, storage, now);
      attached, done := first, {};
      ghost var s := Pass(State(), queuedTxs, attached);
      FirstPassConsistent(g, checkedTxs, storage, now);
      StartOfDrain(s, storage);
      while queuedTxs != {}
        invariant Progress(s, storage, Drain(State(), attached, queuedTxs), done)
        invariant Tracked(State(), trace, before, attached) && old(trace) <= trace
        decreases |storedTxs|, |queuedTxs|
      {
        attached, queuedTxs, done := DrainRound(queuedTxs, attached, storage, before, s, done);
      }
      ghost var d := Drain(State(), attached, {});
      EndOfDrain(s, storage, d, done);
      EndGraph(s, storage, d, done);
      EndShape(s, storage, d, done);
      EndTracking(State(), trace, before, attached);
      BatchOutcome(g, checkedTxs, storage, now, done);
    }

    /** Takes a transaction out of the inverse entries of its dependencies. */
    method RemoveTxFromDeps(txid: Txid)
      modifies this`deps, this`inverseDeps
      ensures deps == old(deps) - {txid}
      ensures inverseDeps == DropFrom(old(inverseDeps), txid, Get(old(deps), txid))
    {
      var parents := Get(deps, txid);
      deps := deps - {txid};
      var rest := parents;
      ghost var inv := inverseDeps;
      assert DropFrom(inv, txid, {}) == inv;
      while rest != {}
        invariant rest <= parents && deps == old(deps) - {txid}
        invariant inverseDeps == DropFrom(inv, txid, parents - rest)
        decreases rest
      {
        var dep :| dep in rest;
        DropFromStep(inv, txid, parents - rest, dep);
        assert parents - (rest - {dep}) == parents - rest + {dep};
        rest := rest - {dep};
        if dep in inverseDeps {
          var left := inverseDeps[dep] - {txid};
          if left == {} {
            inverseDeps := inverseDeps - {dep};
          } else {
            inverseDeps := inverseDeps[dep := left];
          }
        }
      }
      assert parents - rest == parents;
    }

    /** Removes one transaction; returns those that depend on it. */
    method RemoveOne(id: Txid, ghost g: Graph, ghost processed: set<Txid>) returns (dependents: set<Txid>)
      requires Consistent(g) && State() == Cleaned(g, processed) && id !in processed
      modifies this`storedTxs, this`deps, this`inverseDeps
      ensures State() == Cleaned(g, processed + {id})
      ensures dependents <= Get(g.inverseDeps, id) <= dependents + processed + {id}
    {
      CleanTurn(g, processed, id);
      hide Cleaned, Consistent, DropFrom;
      storedTxs := storedTxs - {id};
      RemoveTxFromDeps(id);
      dependents := Get(inverseDeps, id);
      inverseDeps := inverseDeps - {id};
    }

    /** Removes an outdated transaction and everything reachable from it. */
    method RemoveOutdatedTx(txid: Txid) returns (ghost removed: set<Txid>)
      requires Valid()
      modifies this
      ensures Valid() && trace == old(trace)
      ensures Reachable(old(inverseDeps), {txid}, removed)
      ensures State() == Cleaned(old(State()), removed)
    {
      hide Cleaned, Consistent, WaitingSafe, SafeTrace, Removing, Dependents, Reachable, NoRepeats, Ids, Get, ClosedUnder;
      ghost var g := State();
      ghost var processed: set<Txid> := {};
      var txsToRemove, removedTxsSet := [txid], {txid};
      CleanedNothingOf(g);
      StartRemoving(g.inverseDeps, txid);
      while txsToRemove != []
        invariant State() == Cleaned(g, processed) && trace == old(trace)
        invariant Removing(g.inverseDeps, txid, processed, txsToRemove, removedTxsSet)
        decreases |Dependents(g.inverseDeps) - removedTxsSet|, |txsToRemove|
      {
        var id := txsToRemove[0];
        ghost var queue, marked := txsToRemove, removedTxsSet;
        RemovingFirst(g.inverseDeps, txid, processed, queue, marked);
        var dependents := RemoveOne(id, g, processed);
        txsToRemove, removedTxsSet := Enqueue(dependents, txsToRemove[1..], removedTxsSet);
        RemovingStep(g.inverseDeps, txid, processed, queue, marked, dependents, txsToRemove);
        FewerLeft(g.inverseDeps, id, dependents, marked);
        processed := processed + {id};
      }
      removed := removedTxsSet;
      EndRemoving(g.inverseDeps, txid, processed, removed);
      CleanedConsistent(g, removed);
      CleanedWaitingSafe(g, removed, trace);
    }

    /** Collects the transactions that waited too long. */
    method CollectOutdated(now: nat) returns (ok: bool, outdatedTxs: seq<Txid>)
      ensures ok <==> forall c | c in storedTxs :: storedTxs[c].1 <= now
      ensures ok ==> Ids(outdatedTxs) == Outdated(storedTxs, now, outdatedDuration)
    {
      outdatedTxs := [];
      var rest := storedTxs.Keys;
      while rest != {}
        invariant rest <= storedTxs.Keys
        invariant forall c | c in storedTxs && c !in rest :: storedTxs[c].1 <= now
        invariant Ids(outdatedTxs) == Outdated(storedTxs, now, outdatedDuration) - rest
        decreases rest
      {
        var txid :| txid in rest;
        rest := rest - {txid};
        var createdAt := storedTxs[txid].1;
        if now < createdAt {
          return false, [];
        }
        if now - createdAt > outdatedDuration {
          IdsSnoc(outdatedTxs, txid);
          outdatedTxs := outdatedTxs + [txid];
        }
      }
      ok := true;
    }

    /** Removes everything that waited too long. Fails, changing nothing, if the
        clock is behind the arrival of some transaction. */
    method HandleCleanup(now: nat) returns (ok: bool, ghost removed: set<Txid>)
      requires Valid()
      modifies this
      ensures Valid() && trace == old(trace)
      ensures BuilderRuns.Next(old(State()), outdatedDuration, BuilderRuns.Cleanup(now), State())
      ensures ok <==> forall c | c in old(storedTxs) :: old(storedTxs)[c].1 <= now
      ensures !ok ==> State() == old(State())
      ensures ok ==> && Reachable(old(inverseDeps), Outdated(old(storedTxs), now, outdatedDuration), removed)
                     && State() == Cleaned(old(State()), removed)
      ensures ok ==> forall c | c in old(storedTxs) ::
                if exists r :: r in old(storedTxs) && now - old(storedTxs)[r].1 > outdatedDuration && Leads(old(inverseDeps), r, c)
                then c !in storedTxs && c !in deps
                else c in storedTxs && storedTxs[c] == old(storedTxs)[c] && deps[c] == old(deps)[c]
    {
      hide Reachable, Cleaned, Consistent, WaitingSafe, SafeTrace, Outdated, Ids;
      ghost var g := State();
      removed := {};
      var outdatedTxs;
      ok, outdatedTxs := CollectOutdated(now);
      if !ok {
        return;
      }
      CleanedNothingOf(g);
      NothingReachable(g.inverseDeps);
      EmptyIds();
      for i := 0 to |outdatedTxs|
        invariant Valid() && trace == old(trace)
        invariant Reachable(g.inverseDeps, Ids(outdatedTxs[..i]), removed)
        invariant State() == Cleaned(g, removed)
      {
        ghost var more := RemoveOutdatedTx(outdatedTxs[i]);
        ReachableTwice(g, Ids(outdatedTxs[..i]), removed, outdatedTxs[i], more);
        CleanedTwice(g, removed, more);
        IdsSnoc(outdatedTxs[..i], outdatedTxs[i]);
        assert outdatedTxs[..i + 1] == outdatedTxs[..i] + [outdatedTxs[i]];
        removed := removed + more;
      }
      assert outdatedTxs[..|outdatedTxs|] == outdatedTxs;
      RemovedExactly(g, now, outdatedDuration, removed);
    }
  }

  /** Pushes the ids that were not marked for removal yet. */
  method Enqueue(dependents: set<Txid>, queue0: seq<Txid>, marked0: set<Txid>) returns (queue: seq<Txid>, marked: set<Txid>)
    requires NoRepeats(queue0) && Ids(queue0) <= marked0
    ensures marked == marked0 + dependents
    ensures NoRepeats(queue) && Ids(queue) == Ids(queue0) + (dependents - marked0)
    ensures dependents <= marked0 ==> queue == queue0
  {
    queue, marked := queue0, marked0;
    var rest := dependents;
    while rest != {}
      invariant rest <= dependents && marked == marked0 + (dependents - rest)
      invariant NoRepeats(queue) && Ids(queue) == Ids(queue0) + (dependents - rest - marked0)
      invariant dependents <= marked0 ==> queue == queue0
      decreases rest
    {
      var id :| id in rest;
      rest := rest - {id};
      if id !in marked {
        IdsSnoc(queue, id);
        queue := queue + [id];
        marked := marked + {id};
      }
    }
  }

  ghost predicate NoRepeats(ids: seq<Txid>) {
    forall i, j | 0 <= i < j < |ids| :: ids[i] != ids[j]
  }

  lemma TakeFirst(ids: seq<Txid>)
    requires NoRepeats(ids) && ids != []
    ensures NoRepeats(ids[1..]) && Ids(ids) == {ids[0]} + Ids(ids[1..]) && ids[0] !in Ids(ids[1..])
  {
    assert ids == [ids[0]] + ids[1..];
  }

  /** What one turn of the removal does. */
  lemma CleanTurn(g: Graph, processed: set<Txid>, id: Txid)
    requires Consistent(g) && id !in processed
    ensures var g' := Cleaned(g, processed);
            var inv := DropFrom(g'.inverseDeps, id, Get(g'.deps, id));
            && Graph(inv - {id}, g'.deps - {id}, g'.stored - {id}) == Cleaned(g, processed + {id})
            && Get(inv, id) <= Get(g.inverseDeps, id) <= Get(inv, id) + processed + {id}
  {
    CleanedStep(g, processed, id);
    RecordedDependents(g, processed, id);
  }

  ghost function Dependents(inv: map<Txid, set<Txid>>): set<Txid> {
    set p, c | p in inv && c in inv[p] :: c
  }

  lemma FewerLeft(inv: map<Txid, set<Txid>>, id: Txid, dependents: set<Txid>, marked: set<Txid>)
    requires dependents <= Get(inv, id)
    ensures dependents <= marked || |Dependents(inv) - (marked + dependents)| < |Dependents(inv) - marked|
    ensures dependents <= marked ==> marked + dependents == marked
  {
    if !(dependents <= marked) {
      var x :| x in dependents && x !in marked;
      assert x in Dependents(inv) - marked;
      var less := Dependents(inv) - (marked + dependents);
      assert less <= Dependents(inv) - marked - {x};
      FewerMembers(less, Dependents(inv) - marked - {x});
    }
  }

  lemma FewerMembers(a: set<Txid>, b: set<Txid>)
    requires a <= b
    ensures |a| <= |b|
  {
    assert b == a + (b - a);
  }

  lemma CleanedNothingOf(g: Graph)
    requires Consistent(g)
    ensures Cleaned(g, {}) == g
  {
    CleanedNothing(g);
  }

  /** The worklist of a removal: `marked` are the ids found so far, `processed`
      those already removed and `queue` the others. */
  ghost predicate Removing(inv: map<Txid, set<Txid>>, root: Txid, processed: set<Txid>, queue: seq<Txid>, marked: set<Txid>) {
    && NoRepeats(queue) && processed !! Ids(queue) && marked == processed + Ids(queue) && root in marked
    && (forall p | p in processed :: Get(inv, p) <= marked)
    && (forall other: set<Txid> | {root} <= other && ClosedUnder(inv, other) :: marked <= other)
  }

  lemma StartRemoving(inv: map<Txid, set<Txid>>, root: Txid)
    ensures Removing(inv, root, {}, [root], {root})
  {
    assert Ids([root]) == {root};
  }

  lemma RemovingFirst(inv: map<Txid, set<Txid>>, root: Txid, processed: set<Txid>, queue: seq<Txid>, marked: set<Txid>)
    requires Removing(inv, root, processed, queue, marked) && queue != []
    ensures queue[0] !in processed && NoRepeats(queue[1..]) && Ids(queue[1..]) <= marked
  {
    TakeFirst(queue);
  }

  lemma RemovingStep(inv: map<Txid, set<Txid>>, root: Txid, processed: set<Txid>, queue: seq<Txid>, marked: set<Txid>,
                     dependents: set<Txid>, queue': seq<Txid>)
    requires Removing(inv, root, processed, queue, marked) && queue != []
    requires dependents <= Get(inv, queue[0]) <= dependents + processed + {queue[0]}
    requires NoRepeats(queue') && Ids(queue') == Ids(queue[1..]) + (dependents - marked)
    ensures Removing(inv, root, processed + {queue[0]}, queue', marked + dependents)
  {
    TakeFirst(queue);
    forall other: set<Txid> | {root} <= other && ClosedUnder(inv, other) ensures marked + dependents <= other {
      assert queue[0] in marked;
    }
  }

  lemma EndRemoving(inv: map<Txid, set<Txid>>, root: Txid, processed: set<Txid>, marked: set<Txid>)
    requires Removing(inv, root, processed, [], marked)
    ensures processed == marked && Reachable(inv, {root}, marked) && ClosedUnder(inv, marked)
  {
    assert Ids([]) == {};
  }

  lemma NothingReachable(inv: map<Txid, set<Txid>>)
    ensures Reachable(inv, {}, {})
  {
  }

  lemma StartTracking(g: Graph, trace: Trace)
    requires SafeTrace(trace) && WaitingSafe(g, trace)
    ensures Tracked(g, trace, Reports(trace), [])
  {
    assert Reports(trace) + [] == Reports(trace);
  }

  lemma EndShape(s: Pass, storage: set<Txid>, d: Drain, done: set<Txid>)
    requires Progress(s, storage, d, done)
    ensures s.attached <= d.attached && Ids(d.attached) == Ids(s.attached) + done
  {
  }

  lemma EndTracking(g: Graph, trace: Trace, before: seq<Txid>, attached: seq<Txid>)
    requires Tracked(g, trace, before, attached)
    ensures SafeTrace(trace) && WaitingSafe(g, trace) && Reports(trace) == before + attached
  {
  }

  lemma IssueStep(s: Pass, tx: Tx, storage: set<Txid>, now: nat)
    requires tx.kind.Issue?
    ensures PassStep(s, tx, storage, now) == Attach(s, tx.id)
  {
  }

  lemma OtherStep(s: Pass, tx: Tx, storage: set<Txid>, now: nat)
    ensures tx.kind.SparkExit? ==> PassStep(s, tx, storage, now) == s.(attached := s.attached + [tx.id])
    ensures tx.kind.Announcement? ==> PassStep(s, tx, storage, now) == s
  {
  }

  lemma FewerStored(stored: map<Txid, (Tx, nat)>, c: Txid)
    requires c in stored
    ensures |stored - {c}| < |stored|
  {
    assert (stored - {c}).Keys == stored.Keys - {c};
    assert |(stored - {c}).Keys| == |stored.Keys| - 1;
  }

  lemma WithoutUpdated(m: map<Txid, set<Txid>>, k: Txid, v: set<Txid>)
    ensures m[k := v] - {k} == m - {k}
  {
  }

  lemma TurnCases(g: Graph, attached: seq<Txid>, storage: set<Txid>, c: Txid)
    ensures var d := Turn(Drain(g, attached, {}), storage, c);
            && (c !in g.deps ==> d == Drain(g, attached, {}))
            && (c in g.deps ==>
                  var left := g.deps[c] - (Ids(attached) + storage);
                  && (left != {} ==> d == Drain(g.(deps := g.deps[c := left]), attached, {}))
                  && (left == {} ==> d == Drain(Graph(g.inverseDeps - {c}, g.deps - {c}, g.stored - {c}), attached + [c],
                                                Get(g.inverseDeps, c))))
  {
  }

  /** A turn does not depend on what else is pending. */
  lemma TurnWithPending(d: Drain, storage: set<Txid>, c: Txid, rest: set<Txid>, later: set<Txid>)
    requires c in rest && d.pending == rest + later
    ensures var d', d0 := Turn(d, storage, c), Turn(d.(pending := {}), storage, c);
            && d'.graph == d0.graph && d'.attached == d0.attached
            && d'.pending <= rest - {c} + (later + d0.pending) <= d'.pending + {c}
  {
  }

  lemma KeysAgree(s: Pass, storage: set<Txid>, d: Drain, done: set<Txid>)
    requires PassConsistent(s) && Progress(s, storage, d, done)
    ensures d.graph.deps.Keys == d.graph.stored.Keys
    ensures forall c | c in d.graph.stored :: d.graph.stored[c].0.id == c
  {
  }

  lemma ReadyToReport(g: Graph, trace: Trace, before: seq<Txid>, attached: seq<Txid>, c: Txid)
    requires Tracked(g, trace, before, attached) && c in g.stored && Get(g.deps, c) == {}
    ensures Parents(g.stored[c].0) <= Known(trace)
    ensures forall x | x in g.stored - {c} :: (g.stored - {c})[x] == g.stored[x] && Get(g.deps - {c}, x) == Get(g.deps, x)
  {
  }

  lemma NoParents(g: Graph, child: Txid, inputs: seq<Txid>, proofs: seq<(nat, bool)>, known: set<Txid>)
    ensures ProofParents(inputs, proofs[..0]) == {} && AddParents(g, child, {} - known) == g
  {
  }

  lemma AddParentsStep(g: Graph, child: Txid, parents: set<Txid>, parent: Txid)
    ensures var g' := AddParents(g, child, parents);
            AddParents(g, child, parents + {parent})
            == g'.(inverseDeps := g'.inverseDeps[parent := Get(g'.inverseDeps, parent) + {child}],
                   deps := g'.deps[child := Get(g'.deps, child) + {parent}])
  {
    hide AddInverse, Get;
    var d := Get(g.deps, child);
    if parents == {} {
      assert parents + {parent} == {} + {parent};
      InverseStep(g.inverseDeps, child, {}, parent);
      NothingAdded(g.inverseDeps, child);
      assert d + ({} + {parent}) == d + {parent};
    } else {
      InverseStep(g.inverseDeps, child, parents, parent);
      assert parents + {parent} != {} && d + (parents + {parent}) == d + parents + {parent};
      UpdatedTwice(g.deps, child, d, parents, parent);
    }
  }

  lemma UpdatedTwice(m: map<Txid, set<Txid>>, k: Txid, d: set<Txid>, parents: set<Txid>, parent: Txid)
    ensures Get(m[k := d + parents], k) == d + parents
    ensures m[k := d + parents][k := d + parents + {parent}] == m[k := d + parents + {parent}]
  {
  }

  lemma NothingAdded(inv: map<Txid, set<Txid>>, child: Txid)
    ensures AddInverse(inv, child, {}) == inv
  {
  }

  lemma InverseStep(inv: map<Txid, set<Txid>>, child: Txid, parents: set<Txid>, parent: Txid)
    ensures var inv' := AddInverse(inv, child, parents);
            AddInverse(inv, child, parents + {parent}) == inv'[parent := Get(inv', parent) + {child}]
  {
  }

  lemma ReadyParents(g: Graph, child: Txid, parents: set<Txid>, known: set<Txid>, trace: Trace)
    requires Get(AddParents(g, child, parents - known).deps, child) == {}
    requires parents * known <= Known(trace)
    ensures parents <= Known(trace)
  {
    hide Known;
    assert parents == parents * known + (parents - known);
  }

  lemma NotStored(s: Pass, id: Txid)
    requires PassConsistent(s) && id !in s.graph.deps
    ensures id !in s.graph.stored
    ensures forall c | c in s.graph.stored :: Get(s.graph.deps - {id}, c) == Get(s.graph.deps, c)
  {
  }

  lemma TrackWaiting(g: Graph, trace: Trace, before: seq<Txid>, attached: seq<Txid>, tx: Tx, parents: set<Txid>, now: nat)
    requires Tracked(g, trace, before, attached)
    requires Parents(tx) <= parents + Known(trace)
    ensures var g' := AddParents(g, tx.id, parents);
            Tracked(g'.(stored := g'.stored[tx.id := (tx, now)]), trace, before, attached)
  {
    hide Known, SafeTrace, Reports;
  }

  lemma EmptyIds()
    ensures Ids([]) == {}
  {
  }

  lemma KnownAttached(g: Graph, trace: Trace, before: seq<Txid>, attached: seq<Txid>)
    requires Tracked(g, trace, before, attached)
    ensures Ids(attached) <= Known(trace)
  {
  }

  /** Known parents can be taken off the dependencies. */
  lemma TrackPruned(g: Graph, trace: Trace, before: seq<Txid>, attached: seq<Txid>, c: Txid, left: set<Txid>)
    requires Tracked(g, trace, before, attached) && c in g.deps && g.deps[c] <= left + Known(trace)
    ensures Tracked(g.(deps := g.deps[c := left]), trace, before, attached)
  {
    hide Known, Parents, SafeTrace, Reports;
  }
}
