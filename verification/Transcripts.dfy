/** The Fiat-Shamir transcript: an append-only log. A challenge is an arbitrary
    function, the oracle, of everything logged before it. */
module Transcripts {
  import opened Scalars

  datatype Entry =
    | Start(tag: string)
    | Message(tag: string, point: Point)
    | Asked(tag: string)

  type Log = seq<Entry>
  type Oracle = Log -> Scalar

  /** A challenge is drawn right after it was asked for. */
  predicate IsQuery(log: Log) {
    log != [] && log[|log| - 1].Asked?
  }

  /** No challenge is zero in the source: it unwraps the inverse of each. */
  ghost predicate ChallengesInvertible(oracle: Oracle) {
    forall log: Log | IsQuery(log) :: Invertible(oracle(log))
  }

  class Transcript {
    const oracle: Oracle
    var log: Log

    constructor (oracle: Oracle, tag: string)
      ensures this.oracle == oracle
      ensures log == [Start(tag)]
    {
      this.oracle := oracle;
      log := [Start(tag)];
    }

    method AppendMessage(tag: string, point: Point)
      modifies this
      ensures log == old(log) + [Message(tag, point)]
    {
      log := log + [Message(tag, point)];
    }

    method Challenge(tag: string) returns (e: Scalar)
      modifies this
      ensures log == old(log) + [Asked(tag)]
      ensures e == oracle(log)
    {
      log := log + [Asked(tag)];
      e := oracle(log);
    }
  }

  /** The log after two points were sent and a challenge was drawn. */
  function Synced(log: Log, a: Point, b: Point): Log {
    log + [Message("a", a), Message("b", b), Asked("e")]
  }

  /** Equal logs come from equal points. */
  lemma SyncedBinds(log: Log, a: Point, b: Point, log': Log, a': Point, b': Point)
    ensures Synced(log, a, b) == Synced(log', a', b') <==> log == log' && a == a' && b == b'
  {
    var s, s' := Synced(log, a, b), Synced(log', a', b');
    assert s[..|s| - 3] == log && s'[..|s'| - 3] == log';
    assert s[|s| - 3] == Message("a", a) && s'[|s'| - 3] == Message("a", a');
    assert s[|s| - 2] == Message("b", b) && s'[|s'| - 2] == Message("b", b');
  }

  method SyncPoints(a: Point, b: Point, transcript: Transcript) returns (e: Scalar)
    modifies transcript
    ensures transcript.log == old(transcript.log) + [Message("a", a), Message("b", b), Asked("e")]
    ensures transcript.log == Synced(old(transcript.log), a, b)
    ensures e == transcript.oracle(transcript.log)
  {
    transcript.AppendMessage("a", a);
    transcript.AppendMessage("b", b);
    e := transcript.Challenge("e");
    assert transcript.log == Synced(old(transcript.log), a, b);
  }

  /** The log goes on from `start` with three entries for each pair of points, in order. */
  ghost predicate Logged(log: Log, start: Log, ls: seq<Point>, rs: seq<Point>)
    requires |ls| == |rs|
  {
    && |log| == |start| + 3 * |ls| && log[..|start|] == start
    && (forall i | 0 <= i < |ls| ::
          log[|start| + 3 * i..|start| + 3 * i + 3] == [Message("a", ls[i]), Message("b", rs[i]), Asked("e")])
  }

  lemma LoggedNone(log: Log)
    ensures Logged(log, log, [], [])
  {
  }

  lemma LoggedNext(log: Log, start: Log, ls: seq<Point>, rs: seq<Point>, l: Point, r: Point)
    requires |ls| == |rs| && Logged(log, start, ls, rs)
    ensures Logged(Synced(log, l, r), start, ls + [l], rs + [r])
  {
    var next := Synced(log, l, r);
    forall i | 0 <= i <= |ls|
      ensures next[|start| + 3 * i..|start| + 3 * i + 3] == [Message("a", (ls + [l])[i]), Message("b", (rs + [r])[i]), Asked("e")] {
      if i < |ls| {
        assert next[|start| + 3 * i..|start| + 3 * i + 3] == log[|start| + 3 * i..|start| + 3 * i + 3];
      }
    }
  }

  /** A log tells every point that was sent. */
  lemma LoggedBinds(log: Log, start: Log, ls: seq<Point>, rs: seq<Point>, ls': seq<Point>, rs': seq<Point>)
    requires |ls| == |rs| && |ls'| == |rs'| && Logged(log, start, ls, rs) && Logged(log, start, ls', rs')
    ensures ls == ls' && rs == rs'
  {
    forall i | 0 <= i < |ls| ensures ls[i] == ls'[i] && rs[i] == rs'[i] {
      var sent := log[|start| + 3 * i..|start| + 3 * i + 3];
      assert sent[0] == Message("a", ls[i]) == Message("a", ls'[i]);
      assert sent[1] == Message("b", rs[i]) == Message("b", rs'[i]);
    }
  }
}
