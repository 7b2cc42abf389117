/** What a graph builder learned and reported, in order: the storage lookups that
    succeeded and the transactions it reported as attached. */
module AttachTrace {
  import opened AttachSpec

  datatype Event = Found(id: Txid) | Reported(tx: Tx)

  type Trace = seq<Event>

  function Subject(e: Event): Txid {
    match e
    case Found(id) => id
    case Reported(tx) => tx.id
  }

  ghost function Known(trace: Trace): set<Txid> {
    set e | e in trace :: Subject(e)
  }

  /** The reported ids, in order. */
  ghost function Reports(trace: Trace): seq<Txid> {
    if |trace| == 0 then [] else
      var n := |trace| - 1;
      Reports(trace[..n]) + (if trace[n].Reported? then [trace[n].tx.id] else [])
  }

  /** Every reported transaction has all its parents found in storage or
      reported before it. */
  ghost predicate SafeTrace(trace: Trace) {
    forall i | 0 <= i < |trace| && trace[i].Reported? :: Parents(trace[i].tx) <= Known(trace[..i])
  }

  /** A waiting transaction waits for every parent that is not known yet. */
  ghost predicate WaitingSafe(g: Graph, trace: Trace) {
    forall c | c in g.stored :: Parents(g.stored[c].0) <= Get(g.deps, c) + Known(trace)
  }

  /** The trace during a call: `attached` were reported since `before`. */
  ghost predicate Tracked(g: Graph, trace: Trace, before: seq<Txid>, attached: seq<Txid>) {
    && SafeTrace(trace) && WaitingSafe(g, trace)
    && Ids(attached) <= Known(trace)
    && Reports(trace) == before + attached
  }

  lemma KnownSnoc(trace: Trace, e: Event)
    ensures Known(trace + [e]) == Known(trace) + {Subject(e)}
  {
    assert forall x :: x in trace + [e] <==> x in trace || x == e;
  }

  lemma SafeSnoc(trace: Trace, e: Event)
    requires SafeTrace(trace)
    requires e.Reported? ==> Parents(e.tx) <= Known(trace)
    ensures SafeTrace(trace + [e])
  {
    var t := trace + [e];
    forall i | 0 <= i < |t| && t[i].Reported? ensures Parents(t[i].tx) <= Known(t[..i]) {
      assert t[..i] == if i < |trace| then trace[..i] else trace;
    }
  }

  lemma ReportsSnoc(trace: Trace, e: Event)
    ensures Reports(trace + [e]) == Reports(trace) + (if e.Reported? then [e.tx.id] else [])
  {
    assert (trace + [e])[..|trace|] == trace;
  }

  lemma TrackFound(g: Graph, trace: Trace, before: seq<Txid>, attached: seq<Txid>, id: Txid)
    requires Tracked(g, trace, before, attached)
    ensures Tracked(g, trace + [Found(id)], before, attached)
  {
    hide SafeTrace, Known, Parents, Reports;
    KnownSnoc(trace, Found(id));
    SafeSnoc(trace, Found(id));
    ReportsSnoc(trace, Found(id));
  }

  lemma TrackReport(g: Graph, g': Graph, trace: Trace, before: seq<Txid>, attached: seq<Txid>, tx: Tx)
    requires Tracked(g, trace, before, attached) && Parents(tx) <= Known(trace)
    requires g'.stored.Keys <= g.stored.Keys
    requires forall c | c in g'.stored :: g'.stored[c] == g.stored[c] && Get(g'.deps, c) == Get(g.deps, c)
    ensures Tracked(g', trace + [Reported(tx)], before, attached + [tx.id])
  {
    hide SafeTrace, Known, Parents, Reports;
    KnownSnoc(trace, Reported(tx));
    SafeSnoc(trace, Reported(tx));
    ReportsSnoc(trace, Reported(tx));
    assert Ids(attached + [tx.id]) == Ids(attached) + {tx.id};
    assert before + attached + [tx.id] == before + (attached + [tx.id]);
  }
}
