/** Draining the queue: whatever the order in which queued transactions are
    taken, the same transactions end up attached. */
module AttachDrain {
  import opened AttachSpec

  /** A queued transaction is looked at if it was queued by the first pass or
      depends on a drained one. */
  ghost predicate Touched(s: Pass, done: set<Txid>, c: Txid) {
    c in s.queued || exists d :: d in done && c in Get(s.graph.inverseDeps, d)
  }

  /** `done` holds every waiting transaction that is touched and has all its
      dependencies attached, drained or in storage. */
  ghost predicate Closed(s: Pass, storage: set<Txid>, done: set<Txid>) {
    forall c | c in s.graph.stored && c in s.graph.deps && Touched(s, done, c)
               && s.graph.deps[c] <= Ids(s.attached) + done + storage :: c in done
  }

  /** The least such set: what the drain after the first pass `s` must attach. */
  ghost predicate LeastClosed(s: Pass, storage: set<Txid>, done: set<Txid>) {
    Closed(s, storage, done) && forall other | Closed(s, storage, other) :: done <= other
  }

  lemma LeastClosedIsUnique(s: Pass, storage: set<Txid>, done: set<Txid>, done': set<Txid>)
    requires LeastClosed(s, storage, done) && LeastClosed(s, storage, done')
    ensures done == done'
  {
  }

  /** The state of a drain: `done` were attached since the first pass `s`,
      `pending` wait for their turn. */
  datatype Drain = Drain(graph: Graph, attached: seq<Txid>, pending: set<Txid>)

  ghost predicate Shape(s: Pass, d: Drain, done: set<Txid>) {
    && done <= s.graph.stored.Keys
    && d.graph.stored == s.graph.stored - done
    && d.graph.inverseDeps == s.graph.inverseDeps - done
    && d.graph.deps.Keys == s.graph.deps.Keys - done
    && s.attached <= d.attached
    && Ids(d.attached) == Ids(s.attached) + done
  }

  /** Only attached or stored parents were taken off the dependencies. */
  ghost predicate Pruned(s: Pass, storage: set<Txid>, d: Drain) {
    forall c | c in d.graph.deps ::
      c in s.graph.deps && d.graph.deps[c] != {} && d.graph.deps[c] <= s.graph.deps[c]
      && s.graph.deps[c] - (Ids(d.attached) + storage) <= d.graph.deps[c]
  }

  ghost predicate Untouched(s: Pass, d: Drain, done: set<Txid>) {
    forall c | c in d.graph.deps && !Touched(s, done, c) :: c in s.graph.deps && d.graph.deps[c] == s.graph.deps[c]
  }

  /** A touched transaction whose turn is over waits for unknown parents only. */
  ghost predicate Settled(s: Pass, storage: set<Txid>, d: Drain, done: set<Txid>) {
    forall c | c in d.graph.deps && Touched(s, done, c) && c !in d.pending ::
      d.graph.deps[c] !! Ids(d.attached) + storage
  }

  ghost predicate Mirrored(d: Drain) {
    forall c, p | c in d.graph.deps && p in d.graph.deps[c] ::
      c in Get(d.graph.inverseDeps, p) || (p in d.attached && c in d.pending)
  }

  ghost predicate Progress(s: Pass, storage: set<Txid>, d: Drain, done: set<Txid>) {
    && Shape(s, d, done) && Pruned(s, storage, d) && Settled(s, storage, d, done) && Mirrored(d)
    && Untouched(s, d, done)
    && (forall c | c in d.pending :: Touched(s, done, c))
    && (forall other | Closed(s, storage, other) :: done <= other)
  }

  /** One turn. A queued transaction without dependencies is not waiting, and
      passing over it changes nothing; `PassedOver` says which these are. */
  ghost function Turn(d: Drain, storage: set<Txid>, c: Txid): Drain {
    var g := d.graph;
    if c !in g.deps then d.(pending := d.pending - {c}) else
      var left := g.deps[c] - (Ids(d.attached) + storage);
      if left != {} then d.(graph := g.(deps := g.deps[c := left]), pending := d.pending - {c}) else
        Drain(Graph(g.inverseDeps - {c}, g.deps - {c}, g.stored - {c}), d.attached + [c],
              d.pending - {c} + Get(g.inverseDeps, c))
  }

  lemma StartOfDrain(s: Pass, storage: set<Txid>)
    requires PassConsistent(s)
    ensures Progress(s, storage, Drain(s.graph, s.attached, s.queued), {})
  {
    var d := Drain(s.graph, s.attached, s.queued);
    assert s.graph.stored - {} == s.graph.stored && s.graph.inverseDeps - {} == s.graph.inverseDeps;
    assert Shape(s, d, {});
  }

  lemma IdsSnoc(ids: seq<Txid>, id: Txid)
    ensures Ids(ids + [id]) == Ids(ids) + {id}
  {
  }

  // ---------- a turn that leaves the transaction waiting

  lemma WaitingTurn(s: Pass, storage: set<Txid>, d: Drain, done: set<Txid>, c: Txid)
    requires Progress(s, storage, d, done) && c in d.pending
    requires c in d.graph.deps && d.graph.deps[c] - (Ids(d.attached) + storage) != {}
    ensures Progress(s, storage, Turn(d, storage, c), done)
  {
    hide Closed;
    var d' := Turn(d, storage, c);
    assert d'.graph.deps.Keys == d.graph.deps.Keys;
    assert Shape(s, d', done) && Pruned(s, storage, d') && Settled(s, storage, d', done) && Mirrored(d');
  }

  lemma AbsentTurn(s: Pass, storage: set<Txid>, d: Drain, done: set<Txid>, c: Txid)
    requires Progress(s, storage, d, done) && c in d.pending && c !in d.graph.deps
    ensures Progress(s, storage, Turn(d, storage, c), done)
  {
    hide Closed;
  }

  // ---------- a turn that attaches the transaction

  lemma DrainedIsForced(s: Pass, storage: set<Txid>, d: Drain, done: set<Txid>, c: Txid)
    requires PassConsistent(s) && Progress(s, storage, d, done) && c in d.pending
    requires c in d.graph.deps && d.graph.deps[c] - (Ids(d.attached) + storage) == {}
    ensures forall other | Closed(s, storage, other) :: done + {c} <= other
  {
    forall other | Closed(s, storage, other) ensures c in other {
      assert done <= other;
      assert Touched(s, done, c);
      assert Touched(s, other, c);
      assert s.graph.deps[c] <= Ids(s.attached) + other + storage;
    }
  }

  lemma TouchedMore(s: Pass, done: set<Txid>, c: Txid)
    ensures forall x :: Touched(s, done + {c}, x) <==> Touched(s, done, x) || x in Get(s.graph.inverseDeps, c)
  {
    forall x ensures Touched(s, done + {c}, x) <==> Touched(s, done, x) || x in Get(s.graph.inverseDeps, c) {
      if x in Get(s.graph.inverseDeps, c) {
        assert c in done + {c};
      }
    }
  }

  lemma AttachingShape(s: Pass, storage: set<Txid>, d: Drain, done: set<Txid>, c: Txid)
    requires PassConsistent(s) && Shape(s, d, done) && Pruned(s, storage, d)
    requires c in d.graph.deps && d.graph.deps[c] - (Ids(d.attached) + storage) == {}
    ensures Shape(s, Turn(d, storage, c), done + {c}) && Pruned(s, storage, Turn(d, storage, c))
  {
    IdsSnoc(d.attached, c);
    var d' := Turn(d, storage, c);
    assert d'.graph.stored == s.graph.stored - (done + {c});
    assert d'.graph.inverseDeps == s.graph.inverseDeps - (done + {c});
    assert d'.graph.deps.Keys == s.graph.deps.Keys - (done + {c});
  }

  lemma AttachingSettled(s: Pass, storage: set<Txid>, d: Drain, done: set<Txid>, c: Txid)
    requires Shape(s, d, done) && Settled(s, storage, d, done) && Mirrored(d) && c !in done
    requires c in d.graph.deps && d.graph.deps[c] - (Ids(d.attached) + storage) == {}
    ensures Settled(s, storage, Turn(d, storage, c), done + {c}) && Mirrored(Turn(d, storage, c))
  {
    IdsSnoc(d.attached, c);
    TouchedMore(s, done, c);
    var d' := Turn(d, storage, c);
    assert Get(s.graph.inverseDeps, c) == Get(d.graph.inverseDeps, c);
    forall x, p | x in d'.graph.deps && p in d'.graph.deps[x]
      ensures x in Get(d'.graph.inverseDeps, p) || (p in d'.attached && x in d'.pending)
    {
      assert x in d.graph.deps && p in d.graph.deps[x];
      assert p in d.attached ==> p in d'.attached;
      assert c in d'.attached;
    }
    forall x | x in d'.graph.deps && Touched(s, done + {c}, x) && x !in d'.pending
      ensures d'.graph.deps[x] !! Ids(d'.attached) + storage
    {
      assert x !in Get(d.graph.inverseDeps, c) && x !in d.pending && c !in d.graph.deps[x];
    }
  }

  lemma AttachingTurn(s: Pass, storage: set<Txid>, d: Drain, done: set<Txid>, c: Txid)
    requires PassConsistent(s) && Progress(s, storage, d, done) && c in d.pending
    requires c in d.graph.deps && d.graph.deps[c] - (Ids(d.attached) + storage) == {}
    ensures Progress(s, storage, Turn(d, storage, c), done + {c})
  {
    assert c !in done;
    AttachingShape(s, storage, d, done, c);
    AttachingSettled(s, storage, d, done, c);
    DrainedIsForced(s, storage, d, done, c);
    TouchedMore(s, done, c);
    hide Closed, Settled, Mirrored, Pruned, PassConsistent, Touched;
    assert Get(s.graph.inverseDeps, c) == Get(d.graph.inverseDeps, c);
  }

  lemma MorePending(s: Pass, storage: set<Txid>, d: Drain, done: set<Txid>, pending: set<Txid>)
    requires Progress(s, storage, d, done) && d.pending <= pending
    requires forall c | c in pending :: Touched(s, done, c)
    ensures Progress(s, storage, d.(pending := pending), done)
  {
    hide Closed, Touched, Pruned, Untouched;
    var d' := d.(pending := pending);
    assert Pruned(s, storage, d') && Untouched(s, d', done) by { UnaffectedByPending(s, storage, d, done, pending); }
  }

  lemma UnaffectedByPending(s: Pass, storage: set<Txid>, d: Drain, done: set<Txid>, pending: set<Txid>)
    ensures Pruned(s, storage, d) ==> Pruned(s, storage, d.(pending := pending))
    ensures Untouched(s, d, done) ==> Untouched(s, d.(pending := pending), done)
  {
  }

  /** A turn in a round. Afterwards `pending` may still contain `c`, if it was
      queued for the next round meanwhile. */
  lemma TurnInRound(s: Pass, storage: set<Txid>, d: Drain, done: set<Txid>, c: Txid, pending: set<Txid>) returns (done': set<Txid>)
    requires PassConsistent(s) && Progress(s, storage, d, done) && c in d.pending
    requires Turn(d, storage, c).pending <= pending <= Turn(d, storage, c).pending + {c}
    ensures Progress(s, storage, Turn(d, storage, c).(pending := pending), done')
  {
    hide Closed, Touched, Shape, Pruned, Untouched, Settled, Mirrored, PassConsistent, Turn;
    if c !in d.graph.deps {
      AbsentTurn(s, storage, d, done, c);
      done' := done;
    } else if d.graph.deps[c] - (Ids(d.attached) + storage) != {} {
      WaitingTurn(s, storage, d, done, c);
      done' := done;
    } else {
      AttachingTurn(s, storage, d, done, c);
      done' := done + {c};
    }
    StillTouched(s, done, done');
    MorePending(s, storage, Turn(d, storage, c), done', pending);
  }

  lemma StillTouched(s: Pass, done: set<Txid>, done': set<Txid>)
    requires done <= done'
    ensures forall c :: Touched(s, done, c) ==> Touched(s, done', c)
  {
  }

  // ---------- the end

  /** The graph after `done` were drained. */
  ghost function DrainedGraph(s: Pass, storage: set<Txid>, done: set<Txid>): Graph {
    Graph(s.graph.inverseDeps - done,
          map c | c in s.graph.deps && c !in done ::
            if Touched(s, done, c) then s.graph.deps[c] - (Ids(s.attached) + done + storage) else s.graph.deps[c],
          s.graph.stored - done)
  }

  lemma EndGraph(s: Pass, storage: set<Txid>, d: Drain, done: set<Txid>)
    requires Progress(s, storage, d, done) && d.pending == {}
    ensures d.graph == DrainedGraph(s, storage, done)
  {
    hide Closed;
    var g := DrainedGraph(s, storage, done);
    assert g.deps.Keys == d.graph.deps.Keys;
    forall c | c in g.deps ensures g.deps[c] == d.graph.deps[c] {
      assert s.graph.deps[c] - (Ids(d.attached) + storage) <= d.graph.deps[c] <= s.graph.deps[c];
      assert Touched(s, done, c) ==> d.graph.deps[c] !! Ids(d.attached) + storage;
    }
  }

  /** A drain with nothing pending has attached the least closed set, and left a
      consistent graph. */
  lemma EndOfDrain(s: Pass, storage: set<Txid>, d: Drain, done: set<Txid>)
    requires PassConsistent(s) && Progress(s, storage, d, done) && d.pending == {}
    ensures LeastClosed(s, storage, done) && Consistent(d.graph)
  {
    hide Closed, PassConsistent, Shape, Pruned, Settled, Mirrored, Untouched, Consistent;
    ClosedAtEnd(s, storage, d, done);
    ConsistentAtEnd(s, storage, d, done);
  }

  lemma ConsistentAtEnd(s: Pass, storage: set<Txid>, d: Drain, done: set<Txid>)
    requires PassConsistent(s) && Shape(s, d, done) && Pruned(s, storage, d) && Mirrored(d) && d.pending == {}
    ensures Consistent(d.graph)
  {
  }

  lemma ClosedAtEnd(s: Pass, storage: set<Txid>, d: Drain, done: set<Txid>)
    requires Progress(s, storage, d, done) && d.pending == {}
    ensures Closed(s, storage, done)
  {
    forall c | c in s.graph.stored && c in s.graph.deps && Touched(s, done, c)
               && s.graph.deps[c] <= Ids(s.attached) + done + storage
      ensures c in done
    {
      assert Ids(d.attached) == Ids(s.attached) + done;
    }
  }

  /** What a batch makes of the graph, in whatever order the queue is taken. */
  ghost predicate Batch(g: Graph, txs: seq<Tx>, storage: set<Txid>, now: nat, g': Graph) {
    var s := FirstPass(g, txs, storage, now);
    exists done :: LeastClosed(s, storage, done) && g' == DrainedGraph(s, storage, done)
  }

  /** A batch that queues nothing drains nothing. */
  lemma NothingDrained(g: Graph, txs: seq<Tx>, storage: set<Txid>, now: nat)
    requires FirstPass(g, txs, storage, now).queued == {}
    ensures Batch(g, txs, storage, now, FirstPass(g, txs, storage, now).graph)
  {
    hide FirstPass;
    var s := FirstPass(g, txs, storage, now);
    assert LeastClosed(s, storage, {});
    assert DrainedGraph(s, storage, {}) == s.graph;
  }
}
