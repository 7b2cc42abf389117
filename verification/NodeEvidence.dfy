/** Why each confirmation was sent, and when each waiting transaction came. */
module NodeEvidence {
  import opened Options
  import opened Blocks
  import opened Confirmations
  import opened ConfirmatorSpec
  import opened NodeRuns

  /** The Bitcoin node sees at least `n` confirmations. */
  ghost predicate Enough(n: nat, answer: Answer) {
    exists k: nat :: k >= n && answer == Found(Some(k))
  }

  // ---------- a list of transactions

  /** What a list of transactions leads to: each of them is confirmed as often as it is
      listed if the node sees enough confirmations, and waits otherwise; those that waited
      before keep their time. */
  ghost predicate Handled(n: nat, s: State, ids: seq<Txid>, now: nat, answers: Txid -> Answer, next: State) {
    && (forall id :: id in next.queue <==> (id in s.queue && id !in ids) || (id in ids && !Enough(n, answers(id))))
    && (forall id | id in next.queue :: next.queue[id] == if id in s.queue then s.queue[id] else now)
    && (forall id :: Confirmed(next.sent)[id] ==
                     Confirmed(s.sent)[id] + if Enough(n, answers(id)) then multiset(ids)[id] else 0)
  }

  lemma HandledNext(n: nat, s: State, ids: seq<Txid>, now: nat, answers: Txid -> Answer, before: State, id: Txid)
    requires Account(before) && Handled(n, s, ids, now, answers, before)
    ensures Handled(n, s, ids + [id], now, answers, AfterTx(n, before, id, now, answers(id)))
  {
    hide Confirmed, Account, AfterTx, Enough;
    var next := AfterTx(n, before, id, now, answers(id));
    TxMeans(n, before, id, now, answers(id));
    TxBalances(n, before, id, now, answers(id));
    assert Enough(n, answers(id)) <==> IsConfirmed(n, answers(id)) by { EnoughIsConfirmed(n, answers(id)); }
    forall other | other != id ensures other in next.queue <==> other in before.queue {
      assert other in next.queue <==> other in next.queue - {id};
      assert other in before.queue <==> other in before.queue - {id};
    }
    forall other | other != id && other in next.queue ensures next.queue[other] == before.queue[other] {
      assert next.queue[other] == (next.queue - {id})[other];
    }
    forall other ensures multiset(ids + [id])[other] == multiset(ids)[other] + if other == id then 1 else 0 {
    }
  }

  lemma EnoughIsConfirmed(n: nat, answer: Answer)
    ensures Enough(n, answer) <==> IsConfirmed(n, answer)
  {
    if IsConfirmed(n, answer) {
      assert answer == Found(Some(answer.confirmations.value));
    }
  }

  lemma {:induction false} TxsHandled(n: nat, s: State, ids: seq<Txid>, now: nat, answers: Txid -> Answer)
    requires Account(s) && AfterTxs(n, s, ids, now, answers).Some?
    ensures Handled(n, s, ids, now, answers, AfterTxs(n, s, ids, now, answers).value)
  {
    hide Confirmed, Account, AfterTx, Handled;
    if ids == [] {
      NothingHandled(n, s, now, answers);
    } else {
      var k := |ids| - 1;
      TxsHandled(n, s, ids[..k], now, answers);
      TxsBalance(n, s, ids[..k], now, answers);
      HandledNext(n, s, ids[..k], now, answers, AfterTxs(n, s, ids[..k], now, answers).value, ids[k]);
      assert ids[..k] + [ids[k]] == ids;
    }
  }

  lemma NothingHandled(n: nat, s: State, now: nat, answers: Txid -> Answer)
    ensures Handled(n, s, [], now, answers, s)
  {
    hide Confirmed, Enough;
  }

  // ---------- one turn

  /** The poll tracks a block, and the transaction is in the block `n - 1` generations
      above it. */
  ghost predicate Deep(t: Tree, c: Config, s: NodeState, turn: Turn, id: Txid) {
    turn.Poll? && c.n >= 1 &&
    var r := NextBlock(t, s.height, s.hash, turn.count, turn.tip);
    r.Sent? && !Diverges(s.conf.win.latest, r.block) &&
    var h := Ancestor(t, r.block.hash, c.n - 1);
    h.Some? && h.value in t && id in t[h.value].txs
  }

  /** A reorganisation makes the transaction wait anew. */
  ghost predicate Requeued(t: Tree, s: NodeState, turn: Turn, id: Txid) {
    turn.Poll? &&
    var r := NextBlock(t, s.height, s.hash, turn.count, turn.tip);
    r.Sent? && Diverges(s.conf.win.latest, r.block) && id in s.conf.queue &&
    exists i: nat :: Fork(t, s.conf.win.latest, r.block, i) && id in Orphaned(s.conf, i)
  }

  /** Why a turn may confirm a transaction. */
  ghost predicate Justifies(t: Tree, c: Config, s: NodeState, turn: Turn, id: Txid) {
    match turn
    case Poll(_, _, _, _, answers) =>
      (id in s.conf.queue && Deep(t, c, s, turn, id)) || (Requeued(t, s, turn, id) && Enough(c.n, answers(id)))
    case Submit(ids, _, replies) => id in ids && Enough(c.n, replies(id))
    case CleanUp(_) => false
  }

  /** How a transaction comes to wait from the given time on. */
  ghost predicate Comes(t: Tree, s: NodeState, turn: Turn, id: Txid, time: nat) {
    match turn
    case Poll(_, _, _, now, _) => Requeued(t, s, turn, id) && time == now
    case Submit(ids, now, _) => id in ids && id !in s.conf.queue && time == now
    case CleanUp(_) => false
  }

  /** What is confirmed by the turn has a reason in it, and what waits after it either
      waited before, since the same time, or came in it. */
  ghost predicate Explained(t: Tree, c: Config, s: NodeState, turn: Turn, next: NodeState) {
    && (forall id | Confirmed(next.conf.sent)[id] > Confirmed(s.conf.sent)[id] :: Justifies(t, c, s, turn, id))
    && (forall id | id in next.conf.queue ::
          || (id in s.conf.queue && next.conf.queue[id] == s.conf.queue[id])
          || Comes(t, s, turn, id, next.conf.queue[id]))
  }

  lemma TrackedExplained(t: Tree, c: Config, s: NodeState, turn: Turn, b: Block)
    requires Valid(t, c, s) && Known(t, turn) && turn.Poll? && !Diverges(s.conf.win.latest, b)
    requires NextBlock(t, s.height, s.hash, turn.count, turn.tip) == Sent(b)
    ensures Explained(t, c, s, turn, NodeState(b.height, Some(b.hash), AfterBlock(c.n, s.conf, b)))
  {
    hide ValidTree, ValidWindow, KnownWindow, Account, Confirmed, ConfirmedBy, Waiting, Track, NextBlock, Ancestor;
    SentInStep(t, c, s, turn);
    ConfirmatorValid(t, c, s);
    BlockState(t, c.n, s.conf, b);
    BlockBalances(t, c.n, s.conf, b);
    var confirmed := ConfirmedBy(c.n, s.conf.win.latest, s.conf.queue.Keys, b);
    forall id | id in multiset(confirmed) ensures id in s.conf.queue && Deep(t, c, s, turn, id) {
      assert id in confirmed;
      NewestTracked(c.n, s.conf.win, b);
      var final := Track(c.n, s.conf.win, b).final;
      var h := final[|final| - 1];
      WaitingIn(s.conf.queue.Keys, t[h].txs, id);
    }
  }

  lemma ForkExplained(t: Tree, c: Config, s: NodeState, turn: Turn, b: Block, i: nat, next: NodeState)
    requires Valid(t, c, s) && turn.Poll? && NextBlock(t, s.height, s.hash, turn.count, turn.tip) == Sent(b)
    requires Diverges(s.conf.win.latest, b) && Fork(t, s.conf.win.latest, b, i) && |s.conf.win.latest| - i <= b.height
    requires AfterTxs(c.n, AfterFork(s.conf, b, i), Orphaned(s.conf, i), turn.now, turn.answers) == Some(next.conf)
    ensures Explained(t, c, s, turn, next)
  {
    hide ValidTree, ValidWindow, Account, Confirmed, Dropped, NextBlock, Meets, AfterTxs, Enough, LockStep;
    var forked := AfterFork(s.conf, b, i);
    ForkBalances(s.conf, b, i);
    TxsHandled(c.n, forked, Orphaned(s.conf, i), turn.now, turn.answers);
    forall id | id in Orphaned(s.conf, i) ensures Requeued(t, s, turn, id) && id !in forked.queue {
      DroppedIsExact(s.conf.queue.Keys, s.conf.win.latest[i + 1..], id);
    }
  }

  lemma SubmitExplained(t: Tree, c: Config, s: NodeState, turn: Turn, conf: State)
    requires Valid(t, c, s) && turn.Submit? && AfterTxs(c.n, s.conf, turn.ids, turn.submittedAt, turn.replies) == Some(conf)
    ensures Explained(t, c, s, turn, s.(conf := conf))
  {
    hide ValidTree, ValidWindow, Account, Confirmed, AfterTxs, Enough, LockStep;
    TxsHandled(c.n, s.conf, turn.ids, turn.submittedAt, turn.replies);
    forall id | Confirmed(conf.sent)[id] > Confirmed(s.conf.sent)[id] ensures Justifies(t, c, s, turn, id) {
      assert id in multiset(turn.ids);
    }
  }

  lemma TurnExplained(t: Tree, c: Config, s: NodeState, turn: Turn)
    requires Valid(t, c, s) && Known(t, turn) && AfterTurn(t, c, s, turn).Some?
    ensures Explained(t, c, s, turn, AfterTurn(t, c, s, turn).value)
  {
    hide ValidTree, ValidWindow, Account, Confirmed, NextBlock, AfterBlock, AfterFork, AfterTxs, Orphaned, LockStep, Justifies, Comes, Rewound;
    match turn
    case Poll(count, tip, _, _, _) =>
      var r := NextBlock(t, s.height, s.hash, count, tip);
      if r.Sent? {
        SentInStep(t, c, s, turn);
        if !Diverges(s.conf.win.latest, r.block) {
          TrackedExplained(t, c, s, turn, r.block);
        } else {
          var i := ForkOf(t, s.conf, r.block);
          ForkHeight(t, s.conf.win.latest, r.block, i);
          ForkExplained(t, c, s, turn, r.block, i, AfterTurn(t, c, s, turn).value);
        }
      }
    case Submit(ids, now, replies) => SubmitExplained(t, c, s, turn, AfterTurn(t, c, s, turn).value.conf);
    case CleanUp(now) =>
  }

  // ---------- runs

  ghost predicate JustifiedIn(t: Tree, c: Config, s: NodeState, turns: seq<Turn>, id: Txid)
    requires ValidTree(t)
  {
    exists i :: 0 <= i < |turns| && AfterRun(t, c, s, turns[..i]).Some? &&
                Justifies(t, c, AfterRun(t, c, s, turns[..i]).value, turns[i], id)
  }

  ghost predicate CameIn(t: Tree, c: Config, s: NodeState, turns: seq<Turn>, id: Txid, time: nat)
    requires ValidTree(t)
  {
    exists i :: 0 <= i < |turns| && AfterRun(t, c, s, turns[..i]).Some? &&
                Comes(t, AfterRun(t, c, s, turns[..i]).value, turns[i], id, time)
  }

  lemma InLonger(t: Tree, c: Config, s: NodeState, turns: seq<Turn>, id: Txid)
    requires ValidTree(t) && turns != []
    ensures JustifiedIn(t, c, s, turns[..|turns| - 1], id) ==> JustifiedIn(t, c, s, turns, id)
    ensures forall time | CameIn(t, c, s, turns[..|turns| - 1], id, time) :: CameIn(t, c, s, turns, id, time)
  {
    hide AfterRun, Justifies, Comes, ValidTree;
    var k := |turns| - 1;
    forall i | 0 <= i < k ensures turns[..k][..i] == turns[..i] && turns[..k][i] == turns[i] {
    }
  }

  /** Every run: a transaction is confirmed only when a block with `n - 1` tracked blocks
      above it holds it or the Bitcoin node sees `n` confirmations of it, and what waits
      at the end waits since the time it was given when it was submitted or queued again. */
  lemma {:induction false} RunExplained(t: Tree, c: Config, s: NodeState, turns: seq<Turn>)
    requires Valid(t, c, s) && AllKnown(t, turns) && AfterRun(t, c, s, turns).Some?
    ensures var next := AfterRun(t, c, s, turns).value;
            && (forall id | Confirmed(next.conf.sent)[id] > Confirmed(s.conf.sent)[id] :: JustifiedIn(t, c, s, turns, id))
            && (forall id | id in next.conf.queue ::
                  || (id in s.conf.queue && next.conf.queue[id] == s.conf.queue[id])
                  || CameIn(t, c, s, turns, id, next.conf.queue[id]))
  {
    hide AfterTurn, ValidTree, ValidWindow, Account, LockStep, Confirmed, Justifies, Comes, JustifiedIn, CameIn, ExpiredIn, Kept;
    if turns != [] {
      var k := |turns| - 1;
      RunExplained(t, c, s, turns[..k]);
      RunKeeps(t, c, s, turns[..k]);
      var before, next := AfterRun(t, c, s, turns[..k]).value, AfterRun(t, c, s, turns).value;
      TurnExplained(t, c, before, turns[k]);
      forall id ensures
        && (Confirmed(next.conf.sent)[id] > Confirmed(s.conf.sent)[id] ==> JustifiedIn(t, c, s, turns, id))
        && (id in next.conf.queue ==>
              || (id in s.conf.queue && next.conf.queue[id] == s.conf.queue[id])
              || CameIn(t, c, s, turns, id, next.conf.queue[id])) {
        InLonger(t, c, s, turns, id);
        ByLastTurn(t, c, s, turns, id);
      }
    }
  }

  lemma ByLastTurn(t: Tree, c: Config, s: NodeState, turns: seq<Turn>, id: Txid)
    requires ValidTree(t) && turns != [] && AfterRun(t, c, s, turns[..|turns| - 1]).Some?
    ensures var k := |turns| - 1;
            var before := AfterRun(t, c, s, turns[..k]).value;
            && (Justifies(t, c, before, turns[k], id) ==> JustifiedIn(t, c, s, turns, id))
            && (forall time | Comes(t, before, turns[k], id, time) :: CameIn(t, c, s, turns, id, time))
  {
    hide AfterRun, Justifies, Comes, ValidTree;
  }
}
