/** The transaction confirmator: the queue of waiting transactions, the recent
    blocks, and the handling of blocks, forks and transactions. */
module Confirmators {
  import opened Options
  import opened Blocks
  import opened Confirmations
  import opened ConfirmatorSpec

  class TxConfirmator {
    /** The blocks the Bitcoin node answers from. */
    const tree: Tree
    const confirmationsNumber: nat
    const maxConfirmationTime: nat
    var queue: map<Txid, nat>
    var latestBlocks: seq<BlockInfo>
    /** The messages sent to the controller. */
    var sent: seq<Message>
    /** The blocks that left the window with enough confirmations. */
    ghost var final: seq<Hash>
    /** How often each transaction entered the queue, and left it unconfirmed. */
    ghost var inserted: multiset<Txid>
    ghost var removed: multiset<Txid>

    ghost function Now(): State
      reads this
    {
      State(queue, Window(final, latestBlocks), sent, inserted, removed)
    }

    ghost predicate Sound()
      reads this
    {
      SoundState(tree, confirmationsNumber, Now())
    }

    ghost predicate Valid()
      reads this
    {
      ValidState(tree, confirmationsNumber, Now())
    }

    constructor (tree: Tree, confirmationsNumber: nat, maxConfirmationTime: nat)
      requires ValidTree(tree) && confirmationsNumber >= 1
      ensures Valid() && this.tree == tree && this.confirmationsNumber == confirmationsNumber
      ensures this.maxConfirmationTime == maxConfirmationTime
      ensures Now() == State(map[], Window([], []), [], multiset{}, multiset{})
    {
      hide ValidTree, ValidWindow, Balanced, Confirmed;
      NothingTracked(tree, confirmationsNumber);
      this.tree, this.confirmationsNumber, this.maxConfirmationTime := tree, confirmationsNumber, maxConfirmationTime;
      queue, latestBlocks, sent, final := map[], [], [], [];
      inserted, removed := multiset{}, multiset{};
      new;
      assert queue.Keys == {};
    }

    method HandleMinedTxs(txs: seq<Txid>)
      modifies `sent
      ensures sent == old(sent) + Mined(txs)
    {
      if txs != [] {
        sent := sent + [MinedTxs(txs)];
      }
    }

    /** Dequeues and reports; the account stays balanced exactly if the transactions
        were queued, each listed once. */
    method NewConfirmedTxs(txs: seq<Txid>)
      modifies `queue, `sent
      ensures queue == Without(old(queue), txs) && sent == old(sent) + [ConfirmedTxs(txs)]
      ensures old(Account(Now())) ==>
                (Account(Now()) <==> Distinct(txs) && forall id | id in txs :: id in old(queue))
    {
      hide Balanced, Confirmed;
      for i := 0 to |txs|
        invariant sent == old(sent)
        invariant queue == Without(old(queue), txs[..i])
      {
        queue := queue - {txs[i]};
      }
      assert txs[..|txs|] == txs;
      ConfirmedAppend(sent, ConfirmedTxs(txs));
      sent := sent + [ConfirmedTxs(txs)];
      if old(Account(Now())) {
        ConfirmingExactly(inserted, old(Confirmed(sent)), removed, old(queue), txs);
      }
    }

    /** Walks up from the new block and down the window until they meet; the
        popped blocks that do not meet it are dropped. */
    method FindFork(b: Block) returns (ok: bool, reorgedTxs: seq<Txid>, newIndexingHeight: nat, ghost fork: nat)
      requires ValidTree(tree) && b.hash in tree && tree[b.hash] == b
      modifies `latestBlocks
      ensures ok <==> exists i :: 0 <= i < |old(latestBlocks)| && Meets(tree, old(latestBlocks), b, i)
      ensures ok ==> Fork(tree, old(latestBlocks), b, fork) && latestBlocks == old(latestBlocks)[..fork + 1]
      ensures ok ==> reorgedTxs == Dropped(queue.Keys, old(latestBlocks)[fork + 1..])
      ensures ok ==> newIndexingHeight == b.height - (|old(latestBlocks)| - fork)
      ensures !ok ==> latestBlocks <= old(latestBlocks)
    {
      hide ValidTree, Ancestor, Waiting;
      ghost var was := latestBlocks;
      var prevBlockHash := b.prev;
      reorgedTxs, newIndexingHeight := [], b.height;
      ghost var k := 0;
      FirstGeneration(tree, b);
      while true
        invariant k <= |was| && latestBlocks == was[..|was| - k]
        invariant k <= b.height && newIndexingHeight == b.height - k
        invariant prevBlockHash == Ancestor(tree, b.hash, k + 1)
        invariant reorgedTxs == Dropped(queue.Keys, was[|was| - k..])
        invariant forall j | |was| - k <= j < |was| :: !Meets(tree, was, b, j)
        decreases |latestBlocks|
      {
        if latestBlocks == [] {
          return false, [], 0, 0;
        }
        var lastBlock := latestBlocks[|latestBlocks| - 1];
        latestBlocks := latestBlocks[..|latestBlocks| - 1];
        AncestorHeight(tree, b.hash, k + 1);
        if prevBlockHash.None? {
          NothingAbove(tree, was, b, k + 1);
          return false, [], 0, 0;
        }
        var currentBlockHash := prevBlockHash.value;
        newIndexingHeight := newIndexingHeight - 1;
        if lastBlock.hash == currentBlockHash {
          latestBlocks := latestBlocks + [lastBlock];
          fork := |was| - k - 1;
          assert Meets(tree, was, b, fork);
          return true, reorgedTxs, newIndexingHeight, fork;
        }
        prevBlockHash := tree[currentBlockHash].prev;
        NextGeneration(tree, b, k + 1);
        reorgedTxs := reorgedTxs + Waiting(queue.Keys, lastBlock.txs);
        k := k + 1;
        assert was[|was| - k..] == [lastBlock] + was[|was| - k + 1..];
      }
    }

    method Dequeue(txs: seq<Txid>)
      modifies `queue, `removed
      ensures queue == Without(old(queue), txs)
      ensures removed == old(removed) + multiset(old(queue.Keys) - queue.Keys)
    {
      for i := 0 to |txs|
        invariant queue == Without(old(queue), txs[..i]) && removed == old(removed)
      {
        queue := queue - {txs[i]};
      }
      assert txs[..|txs|] == txs;
      removed := removed + multiset(old(queue.Keys) - queue.Keys);
    }

    method Report(reorgedTxs: seq<Txid>, newIndexingHeight: nat)
      modifies `queue, `sent, `removed
      ensures queue == Without(old(queue), reorgedTxs)
      ensures sent == old(sent) + [Reorganization(reorgedTxs, newIndexingHeight)]
      ensures removed == old(removed) + multiset(old(queue.Keys) - queue.Keys)
    {
      hide Without;
      Dequeue(reorgedTxs);
      sent := sent + [Reorganization(reorgedTxs, newIndexingHeight)];
    }

    /** The window keeps the blocks up to the fork, the controller learns the
        height of the fork, and the waiting transactions of the other blocks are
        dequeued and reported. */
    method HandleReorg(b: Block) returns (ok: bool, ghost fork: nat)
      requires Sound() && b.hash in tree && tree[b.hash] == b
      modifies `queue, `latestBlocks, `sent, `removed
      ensures Sound() && (ok && old(Valid()) ==> Valid())
      ensures ok <==> exists i :: 0 <= i < |old(latestBlocks)| && Meets(tree, old(latestBlocks), b, i)
      ensures ok ==> Fork(tree, old(latestBlocks), b, fork) && |old(latestBlocks)| - fork <= b.height
      ensures ok ==> Now() == AfterFork(old(Now()), b, fork)
      ensures !ok ==> Now() == old(Now()).(win := Now().win) && final == old(final) && latestBlocks <= old(latestBlocks)
    {
      hide SoundState, ValidState, Ancestor, Dropped, Without, Meets;
      ghost var was := Now();
      SoundTree(tree, confirmationsNumber, was);
      var reorgedTxs, newIndexingHeight;
      ok, reorgedTxs, newIndexingHeight, fork := FindFork(b);
      if ok {
        ForkState(tree, confirmationsNumber, was, b, fork);
        assert reorgedTxs == Orphaned(was, fork);
        hide Orphaned, Fork;
        Report(reorgedTxs, newIndexingHeight);
        assert Now() == AfterFork(was, b, fork);
      } else {
        LostState(tree, confirmationsNumber, was, latestBlocks);
        assert Now() == was.(win := was.win.(latest := latestBlocks));
      }
    }

    /** Extends the window by the block, or handles the fork if its parent is not
        the newest tracked block. In step with the window, a fork is survived
        exactly when an ancestor of the block is tracked; the window then ends at
        the newest such ancestor, whose height is reported. Otherwise the block
        that leaves the window is `n - 1` generations above the new one and its
        waiting transactions, no others, are confirmed. A block without a parent
        joins whatever is tracked: the window stays valid exactly if nothing was. */
    method HandleNewBlock(b: Block) returns (ok: bool, ghost fork: nat)
      requires Sound() && b.hash in tree && tree[b.hash] == b
      modifies `queue, `latestBlocks, `sent, `removed, `final
      ensures Sound()
      ensures !Diverges(old(latestBlocks), b) ==>
                && ok && Now() == AfterBlock(confirmationsNumber, old(Now()), b)
                && (old(Valid()) ==> (Valid() <==> Follows(old(latestBlocks), b)))
      ensures old(Valid()) && !Diverges(old(latestBlocks), b) ==>
                var confirmed := ConfirmedBy(confirmationsNumber, old(latestBlocks), old(queue.Keys), b);
                && (final == old(final) ==> confirmed == [])
                && (final != old(final) && Follows(old(latestBlocks), b) ==>
                      DeepEnough(tree, confirmationsNumber, final[|final| - 1], b, old(queue.Keys), confirmed))
      ensures Diverges(old(latestBlocks), b) && ok ==>
                && Fork(tree, old(latestBlocks), b, fork) && |old(latestBlocks)| - fork <= b.height
                && Now() == AfterFork(old(Now()), b, fork) && (old(Valid()) ==> Valid())
      ensures Diverges(old(latestBlocks), b) && !ok ==>
                && (forall i | 0 <= i < |old(latestBlocks)| :: !Meets(tree, old(latestBlocks), b, i))
                && Now() == old(Now()).(win := Now().win) && final == old(final) && latestBlocks <= old(latestBlocks)
      ensures old(Valid()) && Diverges(old(latestBlocks), b) && InStep(tree, old(latestBlocks), b) ==>
                (ok <==> TracksAncestor(tree, old(latestBlocks), b))
      ensures old(Valid()) && Diverges(old(latestBlocks), b) && InStep(tree, old(latestBlocks), b) && ok ==>
                && ForkPoint(tree, old(latestBlocks), b, fork) && old(latestBlocks)[fork].hash in tree
                && b.height - (|old(latestBlocks)| - fork) == tree[old(latestBlocks)[fork].hash].height
    {
      hide Account, ValidTree, KnownWindow, AfterBlock, AfterFork, Meets, InStep, ConfirmedBy, Waiting, Ancestor, Chain, Hashes, ForkPoint, TracksAncestor, DeepEnough;
      if b.prev.Some? && latestBlocks != [] && latestBlocks[|latestBlocks| - 1].hash != b.prev.value {
        if Valid() && InStep(tree, latestBlocks, b) {
          ForkInStep(tree, latestBlocks, b);
        }
        hide ValidState, SoundState;
        ok, fork := HandleReorg(b);
        return;
      }
      ok, fork := true, 0;
      TrackBlock(b);
    }

    method TrackBlock(b: Block)
      requires Sound() && b.hash in tree && tree[b.hash] == b && !Diverges(latestBlocks, b)
      modifies `queue, `latestBlocks, `sent, `final
      ensures Sound() && Now() == AfterBlock(confirmationsNumber, old(Now()), b)
      ensures old(Valid()) ==> (Valid() <==> Follows(old(latestBlocks), b))
      ensures old(Valid()) ==>
              var confirmed := ConfirmedBy(confirmationsNumber, old(latestBlocks), old(queue.Keys), b);
              && (final == old(final) ==> confirmed == [])
              && (final != old(final) && Follows(old(latestBlocks), b) ==>
                    DeepEnough(tree, confirmationsNumber, final[|final| - 1], b, old(queue.Keys), confirmed))
    {
      hide SoundState, ValidState, Waiting, Without, DeepEnough, Follows, Diverges, Account;
      ghost var s := Now();
      BlockState(tree, confirmationsNumber, s, b);
      var blockInfo := BlockInfo(b.hash, b.txs);
      var minedTxs := Waiting(queue.Keys, blockInfo.txs);
      latestBlocks := latestBlocks + [blockInfo];
      HandleMinedTxs(minedTxs);
      WithoutNone(queue);
      if |latestBlocks| == confirmationsNumber {
        var confirmedBlock := latestBlocks[0];
        latestBlocks := latestBlocks[1..];
        final := final + [confirmedBlock.hash];
        var txs := Waiting(queue.Keys, confirmedBlock.txs);
        if txs != [] {
          NewConfirmedTxs(txs);
        }
      }
      assert Now() == AfterBlock(confirmationsNumber, s, b);
    }

    /** Queues a transaction with the time it first came, and confirms it at once if
        the node already sees enough confirmations. Fails exactly when the node does. */
    method HandleTxToConfirm(id: Txid, now: nat, answer: Answer) returns (ok: bool)
      requires Valid()
      modifies `queue, `sent, `inserted
      ensures Valid() && (ok <==> answer != Failed)
      ensures Now() == AfterTx(confirmationsNumber, old(Now()), id, now, answer)
      ensures match answer
              case Found(Some(k)) =>
                sent == old(sent) + [MinedTxs([id])] + (if k >= confirmationsNumber then [ConfirmedTxs([id])] else [])
              case _ => sent == old(sent)
      ensures id !in queue <==> exists k: nat :: k >= confirmationsNumber && answer == Found(Some(k))
      ensures id in queue ==> queue[id] == if id in old(queue) then old(queue)[id] else now
      ensures queue - {id} == old(queue) - {id}
    {
      hide Account, ValidTree, ValidWindow, Confirmed;
      ghost var s := Now();
      TxMeans(confirmationsNumber, s, id, now, answer);
      TxBalances(confirmationsNumber, s, id, now, answer);
      if id !in queue {
        queue := queue[id := now];
        inserted := inserted + multiset{id};
      }
      assert queue - {id} == s.queue - {id};
      ok := answer != Failed;
      if answer.Found? {
        Settle(id, answer);
      }
      assert Now() == AfterTx(confirmationsNumber, s, id, now, answer);
    }

    method Settle(id: Txid, answer: Answer)
      requires answer.Found?
      modifies `queue, `sent
      ensures queue == if IsConfirmed(confirmationsNumber, answer) then old(queue) - {id} else old(queue)
      ensures sent == old(sent) + Mined(if IsMined(answer) then [id] else [])
                      + Confirming(if IsConfirmed(confirmationsNumber, answer) then [id] else [])
    {
      hide Without, Account;
      if answer.confirmations.Some? {
        HandleMinedTxs([id]);
        if answer.confirmations.value >= confirmationsNumber {
          WithoutOne(queue, id);
          NewConfirmedTxs([id]);
        }
      }
    }

    /** Removes exactly the transactions that waited too long. Fails exactly when one
        of them entered the queue later than now. */
    method CleanUpWaitingTxs(now: nat) returns (ok: bool)
      requires Valid()
      modifies `queue, `removed
      ensures Valid()
      ensures ok <==> forall id | id in old(queue) :: old(queue)[id] <= now
      ensures ok ==> Now() == AfterCleanUp(maxConfirmationTime, old(Now()), now)
      ensures ok ==> forall id :: id in queue <==> id in old(queue) && now - old(queue)[id] <= maxConfirmationTime
      ensures forall id | id in queue :: id in old(queue) && queue[id] == old(queue)[id]
      ensures !ok ==> queue.Keys <= old(queue.Keys)
    {
      hide Balanced, Confirmed, ValidTree, ValidWindow, Sweeping;
      var entries := queue.Keys;
      ghost var was := queue;
      SweepStarts(maxConfirmationTime, was, now);
      while entries != {}
        invariant Sweeping(maxConfirmationTime, was, now, entries, queue) && removed == old(removed)
        decreases entries
      {
        var id :| id in entries;
        SweepStep(maxConfirmationTime, was, now, entries, queue, id);
        if queue[id] > now {
          SweptTimes(maxConfirmationTime, was, now, entries, queue);
          RemovingAllBalances(inserted, Confirmed(sent), removed, was.Keys, queue.Keys);
          removed := removed + multiset(was.Keys - queue.Keys);
          return false;
        }
        if now - queue[id] > maxConfirmationTime {
          queue := queue - {id};
        }
        entries := entries - {id};
      }
      SweepEnds(maxConfirmationTime, Now(), was, now);
      RemovingAllBalances(inserted, Confirmed(sent), removed, was.Keys, queue.Keys);
      removed := removed + multiset(was.Keys - queue.Keys);
      ok := true;
    }
  }
}
