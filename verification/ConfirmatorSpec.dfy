/** What each message does to the confirmator, as functions on its state. */
module ConfirmatorSpec {
  import opened Options
  import opened Blocks
  import opened Confirmations

  /** What the Bitcoin node says of a transaction. */
  datatype Answer = NotFound | Failed | Found(confirmations: Option<nat>)

  /** The queue with the time each transaction entered it, the window, the messages
      sent, and how often each transaction entered the queue and left it unconfirmed. */
  datatype State = State(queue: map<Txid, nat>, win: Window, sent: seq<Message>, inserted: multiset<Txid>, removed: multiset<Txid>)

  ghost predicate Account(s: State) {
    Balanced(s.inserted, Confirmed(s.sent), s.removed, s.queue.Keys)
  }

  /** What every message keeps, whatever it is: known blocks, fewer than the
      confirmations, and a balanced account. */
  ghost predicate SoundState(t: Tree, n: nat, s: State) {
    ValidTree(t) && n >= 1 && KnownWindow(t, n, s.win) && Account(s)
  }

  /** And what messages in step keep: the blocks are a chain. */
  ghost predicate ValidState(t: Tree, n: nat, s: State) {
    SoundState(t, n, s) && ValidWindow(t, n, s.win)
  }

  lemma SoundTree(t: Tree, n: nat, s: State)
    requires SoundState(t, n, s)
    ensures ValidTree(t)
  {
  }

  // ---------- a block

  /** A block that does not diverge. */
  ghost function AfterBlock(n: nat, s: State, b: Block): State {
    var confirmed := ConfirmedBy(n, s.win.latest, s.queue.Keys, b);
    s.(queue := Without(s.queue, confirmed), win := Track(n, s.win, b),
       sent := s.sent + Mined(Waiting(s.queue.Keys, b.txs)) + Confirming(confirmed))
  }

  /** What a block does: it is tracked, what waits in it is reported as mined, and if it is
      the `n`-th block then what waits in the oldest one is confirmed and leaves the queue. */
  lemma BlockMeans(n: nat, s: State, b: Block)
    ensures var next, tracked := AfterBlock(n, s, b), s.win.latest + [BlockInfo(b.hash, b.txs)];
            var mined, deep := Waiting(s.queue.Keys, b.txs), |tracked| == n;
            var confirmed := if deep then Waiting(s.queue.Keys, tracked[0].txs) else [];
            && next.win.latest == (if deep then tracked[1..] else tracked)
            && next.win.final == s.win.final + (if deep then [tracked[0].hash] else [])
            && next.sent == s.sent + (if mined == [] then [] else [MinedTxs(mined)])
                            + (if confirmed == [] then [] else [ConfirmedTxs(confirmed)])
            && (forall id :: id in next.queue <==> id in s.queue && !(deep && id in tracked[0].txs))
            && (forall id | id in next.queue :: next.queue[id] == s.queue[id])
  {
    hide Waiting;
    var tracked := s.win.latest + [BlockInfo(b.hash, b.txs)];
    forall id ensures id in Waiting(s.queue.Keys, tracked[0].txs) <==> id in s.queue && id in tracked[0].txs {
      WaitingIn(s.queue.Keys, tracked[0].txs, id);
    }
  }

  /** The transactions that wait in blocks above the fork. */
  ghost function Orphaned(s: State, i: nat): seq<Txid>
    requires i < |s.win.latest|
  {
    Dropped(s.queue.Keys, s.win.latest[i + 1..])
  }

  /** A block that diverges, with the fork at the tracked block `i`. */
  ghost function AfterFork(s: State, b: Block, i: nat): State
    requires i < |s.win.latest| && |s.win.latest| - i <= b.height
  {
    var queue := Without(s.queue, Orphaned(s, i));
    s.(queue := queue, win := s.win.(latest := s.win.latest[..i + 1]),
       sent := s.sent + [Reorganization(Orphaned(s, i), b.height - (|s.win.latest| - i))],
       removed := s.removed + multiset(s.queue.Keys - queue.Keys))
  }

  /** What a fork does: the blocks above it leave the window, what waits in them leaves the
      queue, and both that and the height of the fork are reported. */
  lemma ForkMeans(s: State, b: Block, i: nat)
    requires i < |s.win.latest| && |s.win.latest| - i <= b.height
    ensures var next, gone := AfterFork(s, b, i), s.win.latest[i + 1..];
            && next.win == Window(s.win.final, s.win.latest[..i + 1])
            && next.sent == s.sent + [Reorganization(Dropped(s.queue.Keys, gone), b.height - (|s.win.latest| - i))]
            && (forall id :: id in next.queue <==> id in s.queue && !exists j :: 0 <= j < |gone| && id in gone[j].txs)
            && (forall id | id in next.queue :: next.queue[id] == s.queue[id])
  {
    hide Dropped;
    var gone := s.win.latest[i + 1..];
    forall id ensures id in Orphaned(s, i) <==> id in s.queue && exists j :: 0 <= j < |gone| && id in gone[j].txs {
      DroppedIsExact(s.queue.Keys, gone, id);
    }
  }

  /** There is at most one fork. */
  lemma ForkIsUnique(t: Tree, latest: seq<BlockInfo>, b: Block, i: nat, j: nat)
    requires Fork(t, latest, b, i) && Fork(t, latest, b, j)
    ensures i == j
  {
    hide Meets;
  }

  lemma ForkHeight(t: Tree, latest: seq<BlockInfo>, b: Block, i: nat)
    requires ValidTree(t) && b.hash in t && t[b.hash] == b && Fork(t, latest, b, i)
    ensures |latest| - i <= b.height
  {
    hide Ancestor, ValidTree;
    AncestorHeight(t, b.hash, |latest| - i);
  }

  lemma RemovingAllBalances(inserted: multiset<Txid>, confirmed: multiset<Txid>, removed: multiset<Txid>,
                            queue: set<Txid>, rest: set<Txid>)
    requires Balanced(inserted, confirmed, removed, queue) && rest <= queue
    ensures Balanced(inserted, confirmed, removed + multiset(queue - rest), rest)
  {
    forall id ensures multiset(queue)[id] == multiset(queue - rest)[id] + multiset(rest)[id] {
    }
  }

  lemma ConfirmedByDistinct(t: Tree, n: nat, w: Window, queue: set<Txid>, b: Block)
    requires ValidTree(t) && b.hash in t && t[b.hash] == b
    requires forall i | 0 <= i < |w.latest| :: w.latest[i].hash in t && t[w.latest[i].hash].txs == w.latest[i].txs
    ensures Distinct(ConfirmedBy(n, w.latest, queue, b))
    ensures forall id | id in ConfirmedBy(n, w.latest, queue, b) :: id in queue
  {
    hide Waiting;
    var all := w.latest + [BlockInfo(b.hash, b.txs)];
    if |all| == n {
      assert Distinct(all[0].txs);
      WaitingDistinct(queue, all[0].txs);
    }
  }

  /** The account balances after a block. */
  lemma BlockBalances(t: Tree, n: nat, s: State, b: Block)
    requires ValidTree(t) && KnownWindow(t, n, s.win) && Account(s) && b.hash in t && t[b.hash] == b
    ensures Account(AfterBlock(n, s, b))
    ensures Confirmed(AfterBlock(n, s, b).sent) == Confirmed(s.sent) + multiset(ConfirmedBy(n, s.win.latest, s.queue.Keys, b))
  {
    ConfirmedByDistinct(t, n, s.win, s.queue.Keys, b);
    hide ConfirmedBy, Waiting, Track, Balanced, Confirmed, Without, ValidTree;
    var confirmed := ConfirmedBy(n, s.win.latest, s.queue.Keys, b);
    var mined := Waiting(s.queue.Keys, b.txs);
    ConfirmedMined(s.sent, mined);
    ConfirmedConfirming(s.sent + Mined(mined), confirmed);
    ConfirmingBalances(s.inserted, Confirmed(s.sent), s.removed, s.queue, confirmed);
  }

  lemma ConfirmedMined(sent: seq<Message>, txs: seq<Txid>)
    ensures Confirmed(sent + Mined(txs)) == Confirmed(sent)
  {
    if txs == [] {
      assert sent + Mined(txs) == sent;
    } else {
      ConfirmedAppend(sent, MinedTxs(txs));
    }
  }

  lemma ConfirmedConfirming(sent: seq<Message>, txs: seq<Txid>)
    ensures Confirmed(sent + Confirming(txs)) == Confirmed(sent) + multiset(txs)
  {
    if txs == [] {
      assert sent + Confirming(txs) == sent;
    } else {
      ConfirmedAppend(sent, ConfirmedTxs(txs));
    }
  }

  lemma ForkBalances(s: State, b: Block, i: nat)
    requires Account(s) && i < |s.win.latest| && |s.win.latest| - i <= b.height
    ensures Account(AfterFork(s, b, i)) && Confirmed(AfterFork(s, b, i).sent) == Confirmed(s.sent)
  {
    hide Dropped, Balanced, Confirmed;
    var rest := Without(s.queue, Orphaned(s, i)).Keys;
    RemovingAllBalances(s.inserted, Confirmed(s.sent), s.removed, s.queue.Keys, rest);
    ConfirmedAppend(s.sent, Reorganization(Orphaned(s, i), b.height - (|s.win.latest| - i)));
    assert Confirmed(s.sent) + multiset{} == Confirmed(s.sent);
  }

  /** A block that does not diverge keeps the state sound, and valid exactly if it follows
      the window; what is confirmed then are the transactions of a block deep enough. */
  lemma BlockState(t: Tree, n: nat, s: State, b: Block)
    requires SoundState(t, n, s) && b.hash in t && t[b.hash] == b && !Diverges(s.win.latest, b)
    ensures SoundState(t, n, AfterBlock(n, s, b))
    ensures ValidState(t, n, s) ==> (ValidState(t, n, AfterBlock(n, s, b)) <==> Follows(s.win.latest, b))
    ensures var next, confirmed := Track(n, s.win, b), ConfirmedBy(n, s.win.latest, s.queue.Keys, b);
            && (next.final == s.win.final ==> confirmed == [])
            && (ValidState(t, n, s) && next.final != s.win.final && Follows(s.win.latest, b) ==>
                  DeepEnough(t, n, next.final[|next.final| - 1], b, s.queue.Keys, confirmed))
  {
    hide ValidTree, KnownWindow, ValidWindow, Account, Track, ConfirmedBy, Waiting, Without, DeepEnough;
    TrackedWindow(t, n, s.win, b, s.queue.Keys);
    BlockBalances(t, n, s, b);
  }

  /** A fork keeps the state sound, and valid. */
  lemma ForkState(t: Tree, n: nat, s: State, b: Block, i: nat)
    requires SoundState(t, n, s) && b.hash in t && t[b.hash] == b && Fork(t, s.win.latest, b, i)
    ensures i < |s.win.latest| && |s.win.latest| - i <= b.height
    ensures SoundState(t, n, AfterFork(s, b, i)) && (ValidState(t, n, s) ==> ValidState(t, n, AfterFork(s, b, i)))
  {
    hide ValidTree, KnownWindow, ValidWindow, Account, Meets, Without, Dropped;
    ForkHeight(t, s.win.latest, b, i);
    ForkBalances(s, b, i);
    PrefixKnown(t, n, s.win, s.win.latest[..i + 1]);
    if ValidState(t, n, s) {
      ForkKeepsWindow(t, n, s.win, b, i);
    }
  }

  /** So does losing tracked blocks, except that it is not valid any more. */
  lemma LostState(t: Tree, n: nat, s: State, latest: seq<BlockInfo>)
    requires SoundState(t, n, s) && latest <= s.win.latest
    ensures SoundState(t, n, s.(win := s.win.(latest := latest)))
  {
    hide ValidTree, KnownWindow;
    PrefixKnown(t, n, s.win, latest);
  }

  // ---------- a transaction

  predicate IsMined(answer: Answer) {
    answer.Found? && answer.confirmations.Some?
  }

  predicate IsConfirmed(n: nat, answer: Answer) {
    IsMined(answer) && answer.confirmations.value >= n
  }

  ghost function AfterTx(n: nat, s: State, id: Txid, now: nat, answer: Answer): State {
    s.(queue := if IsConfirmed(n, answer) then s.queue - {id} else if id in s.queue then s.queue else s.queue[id := now],
       sent := s.sent + Mined(if IsMined(answer) then [id] else []) + Confirming(if IsConfirmed(n, answer) then [id] else []),
       inserted := if id in s.queue then s.inserted else s.inserted + multiset{id})
  }

  /** The queue with the transaction in it, since it first came. */
  ghost function Entered(queue: map<Txid, nat>, id: Txid, now: nat): map<Txid, nat> {
    if id in queue then queue else queue[id := now]
  }

  lemma EnteringBalances(s: State, id: Txid, now: nat)
    requires Account(s)
    ensures var queue := Entered(s.queue, id, now);
            && id in queue && queue - {id} == s.queue - {id}
            && Balanced(if id in s.queue then s.inserted else s.inserted + multiset{id}, Confirmed(s.sent), s.removed, queue.Keys)
  {
    hide Confirmed, Balanced;
    if id !in s.queue {
      InsertingBalances(s.inserted, Confirmed(s.sent), s.removed, s.queue.Keys, id);
      assert s.queue[id := now].Keys == s.queue.Keys + {id};
    }
  }

  lemma TxConfirmed(sent: seq<Message>, n: nat, id: Txid, answer: Answer)
    ensures Confirmed(sent + Mined(if IsMined(answer) then [id] else []) + Confirming(if IsConfirmed(n, answer) then [id] else []))
         == Confirmed(sent) + (if IsConfirmed(n, answer) then multiset{id} else multiset{})
  {
    hide Confirmed, Mined, Confirming;
    var mined, confirmed := if IsMined(answer) then [id] else [], if IsConfirmed(n, answer) then [id] else [];
    ConfirmedMined(sent, mined);
    ConfirmedConfirming(sent + Mined(mined), confirmed);
    assert multiset([id]) == multiset{id};
  }

  lemma TxBalances(n: nat, s: State, id: Txid, now: nat, answer: Answer)
    requires Account(s)
    ensures var next := AfterTx(n, s, id, now, answer);
            && Account(next)
            && Confirmed(next.sent) == Confirmed(s.sent) + (if IsConfirmed(n, answer) then multiset{id} else multiset{})
            && next.queue - {id} == s.queue - {id} && (id in next.queue <==> !IsConfirmed(n, answer))
  {
    hide Confirmed, Balanced, Mined, Confirming, IsConfirmed, IsMined, Without;
    var next, queue := AfterTx(n, s, id, now, answer), Entered(s.queue, id, now);
    EnteringBalances(s, id, now);
    TxConfirmed(s.sent, n, id, answer);
    if IsConfirmed(n, answer) {
      WithoutOne(queue, id);
      OneConfirmed(next.inserted, Confirmed(s.sent), s.removed, queue, id);
      assert next.queue == queue - {id};
    } else {
      assert Confirmed(s.sent) + multiset{} == Confirmed(s.sent) && next.queue == queue;
    }
  }

  lemma OneConfirmed(inserted: multiset<Txid>, confirmed: multiset<Txid>, removed: multiset<Txid>, queue: map<Txid, nat>, id: Txid)
    requires Balanced(inserted, confirmed, removed, queue.Keys) && id in queue
    ensures Balanced(inserted, confirmed + multiset{id}, removed, (queue - {id}).Keys)
  {
    assert multiset([id]) == multiset{id} && Distinct([id]);
    WithoutOne(queue, id);
    hide Balanced;
    ConfirmingBalances(inserted, confirmed, removed, queue, [id]);
  }

  /** What one transaction does, by what the node says of it. It is confirmed exactly with
      `n` confirmations or more; otherwise it waits, since the time it first came. */
  lemma TxMeans(n: nat, s: State, id: Txid, now: nat, answer: Answer)
    ensures var next := AfterTx(n, s, id, now, answer);
            && next.win == s.win && next.queue - {id} == s.queue - {id}
            && (match answer
                case Found(Some(k)) =>
                  next.sent == s.sent + [MinedTxs([id])] + (if k >= n then [ConfirmedTxs([id])] else [])
                case _ => next.sent == s.sent)
            && (id !in next.queue <==> exists k: nat :: k >= n && answer == Found(Some(k)))
            && (id in next.queue ==> next.queue[id] == if id in s.queue then s.queue[id] else now)
  {
    var next := AfterTx(n, s, id, now, answer);
    assert next.queue - {id} == s.queue - {id};
    if IsConfirmed(n, answer) {
      assert answer == Found(Some(answer.confirmations.value));
    }
  }

  /** A list of transactions, up to the first for which the node fails. */
  ghost function AfterTxs(n: nat, s: State, ids: seq<Txid>, now: nat, answers: Txid -> Answer): Option<State> {
    if ids == [] then Some(s)
    else
      var k := |ids| - 1;
      match AfterTxs(n, s, ids[..k], now, answers)
      case None => None
      case Some(s') => if answers(ids[k]) == Failed then None else Some(AfterTx(n, s', ids[k], now, answers(ids[k])))
  }

  /** Fails exactly when the node fails for one of them, and loses nothing. */
  lemma {:induction false} TxsBalance(n: nat, s: State, ids: seq<Txid>, now: nat, answers: Txid -> Answer)
    requires Account(s)
    ensures AfterTxs(n, s, ids, now, answers).Some? <==> forall id | id in ids :: answers(id) != Failed
    ensures AfterTxs(n, s, ids, now, answers).Some? ==>
              var next := AfterTxs(n, s, ids, now, answers).value;
              && Account(next) && next.win == s.win && Confirmed(next.sent) >= Confirmed(s.sent)
              && (forall id | id in s.queue || id in ids :: Kept(next.queue.Keys, Confirmed(next.sent), Confirmed(s.sent), id))
  {
    hide Confirmed, Account;
    if ids != [] {
      var k := |ids| - 1;
      assert ids == ids[..k] + [ids[k]];
      TxsBalance(n, s, ids[..k], now, answers);
      if AfterTxs(n, s, ids, now, answers).Some? {
        var before := AfterTxs(n, s, ids[..k], now, answers).value;
        TxBalances(n, before, ids[k], now, answers(ids[k]));
        var next := AfterTxs(n, s, ids, now, answers).value;
        StillKept(before.queue, next.queue, Confirmed(before.sent), Confirmed(next.sent), Confirmed(s.sent), ids[k]);
      }
    }
  }

  lemma StillKept(queue: map<Txid, nat>, next: map<Txid, nat>, confirmed: multiset<Txid>, since: multiset<Txid>,
                  before: multiset<Txid>, id: Txid)
    requires queue - {id} == next - {id} && confirmed >= before
    requires (id in next && since == confirmed) || since == confirmed + multiset{id}
    ensures since >= before && Kept(next.Keys, since, before, id)
    ensures forall other | Kept(queue.Keys, confirmed, before, other) :: Kept(next.Keys, since, before, other)
  {
    forall other | other != id ensures other in queue <==> other in next {
      assert other in queue <==> other in queue - {id};
      assert other in next <==> other in next - {id};
    }
  }

  // ---------- the clean-up

  ghost predicate Expired(max: nat, s: State, now: nat, id: Txid) {
    id in s.queue && now - s.queue[id] > max
  }

  ghost function AfterCleanUp(max: nat, s: State, now: nat): State {
    var queue := map id | id in s.queue && now - s.queue[id] <= max :: s.queue[id];
    s.(queue := queue, removed := s.removed + multiset(s.queue.Keys - queue.Keys))
  }

  /** Part of the queue has been looked at: what waited too long is gone, and nothing
      came later than now. */
  ghost predicate Sweeping(max: nat, was: map<Txid, nat>, now: nat, entries: set<Txid>, queue: map<Txid, nat>) {
    && entries <= queue.Keys <= was.Keys
    && (forall id | id in queue :: queue[id] == was[id])
    && (forall id | id in was && id !in entries :: was[id] <= now && (id in queue <==> now - was[id] <= max))
  }

  lemma SweepStarts(max: nat, was: map<Txid, nat>, now: nat)
    ensures Sweeping(max, was, now, was.Keys, was)
  {
  }

  lemma SweepStep(max: nat, was: map<Txid, nat>, now: nat, entries: set<Txid>, queue: map<Txid, nat>, id: Txid)
    requires Sweeping(max, was, now, entries, queue) && id in entries
    ensures id in queue && id in was && queue[id] == was[id] && queue.Keys <= was.Keys
    ensures was[id] <= now ==>
              Sweeping(max, was, now, entries - {id}, if now - was[id] > max then queue - {id} else queue)
  {
  }

  lemma SweptTimes(max: nat, was: map<Txid, nat>, now: nat, entries: set<Txid>, queue: map<Txid, nat>)
    requires Sweeping(max, was, now, entries, queue)
    ensures queue.Keys <= was.Keys && forall id | id in queue :: queue[id] == was[id]
  {
  }

  lemma SweepEnds(max: nat, s: State, was: map<Txid, nat>, now: nat)
    requires Sweeping(max, was, now, {}, s.queue)
    ensures s.queue.Keys <= was.Keys && forall id | id in was :: was[id] <= now
    ensures s.queue == AfterCleanUp(max, s.(queue := was), now).queue
  {
  }

  lemma CleanUpBalances(max: nat, s: State, now: nat)
    requires Account(s)
    ensures Account(AfterCleanUp(max, s, now))
  {
    hide Balanced, Confirmed;
    RemovingAllBalances(s.inserted, Confirmed(s.sent), s.removed, s.queue.Keys, AfterCleanUp(max, s, now).queue.Keys);
  }
}
