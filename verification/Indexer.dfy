/** The block indexer, and the indexer, confirmator and controller together. */
module Indexers {
  import opened Options
  import opened Blocks
  import opened Confirmations
  import opened ConfirmatorSpec
  import opened Confirmators
  import opened NodeRuns
  import opened NodeEvidence

  class Indexer {
    const tree: Tree
    var confirmedBlockHeight: nat
    var confirmedBlockHash: Option<Hash>

    constructor (tree: Tree, height: nat, hash: Option<Hash>)
      ensures this.tree == tree && confirmedBlockHeight == height && confirmedBlockHash == hash
    {
      this.tree, confirmedBlockHeight, confirmedBlockHash := tree, height, hash;
    }

    /** Sends the next block of the current chain. There is none to send exactly when
        the count is the last indexed height or that block is the last indexed one, and
        asking for it fails exactly when the chain is too short. */
    method HandleNewBlocks(count: nat, tip: Hash) returns (r: Polled)
      requires ValidTree(tree) && tip in tree
      modifies this
      ensures r == NextBlock(tree, old(confirmedBlockHeight), old(confirmedBlockHash), count, tip)
      ensures r.Idle? <==> count == old(confirmedBlockHeight) ||
                           (old(confirmedBlockHash).Some? && BlockAt(tree, tip, old(confirmedBlockHeight) + 1) == old(confirmedBlockHash))
      ensures r.Error? <==> count != old(confirmedBlockHeight) && tree[tip].height <= old(confirmedBlockHeight)
      ensures !r.Sent? ==> unchanged(this)
      ensures r.Sent? ==>
                && r.block.hash in tree && tree[r.block.hash] == r.block && r.block.height == old(confirmedBlockHeight) + 1
                && (r.block.hash == tip || IsAncestor(tree, r.block.hash, tip))
                && old(confirmedBlockHash) != Some(r.block.hash)
                && confirmedBlockHeight == r.block.height && confirmedBlockHash == Some(r.block.hash)
    {
      if count == confirmedBlockHeight {
        return Idle;
      }
      BlockAtHeight(tree, tip, confirmedBlockHeight + 1);
      var hash := BlockAt(tree, tip, confirmedBlockHeight + 1);
      if hash.None? {
        return Error;
      }
      var block := tree[hash.value];
      assert block.hash == hash.value;
      if confirmedBlockHash == Some(block.hash) {
        return Idle;
      }
      confirmedBlockHeight := block.height;
      confirmedBlockHash := Some(block.hash);
      return Sent(block);
    }

    /** Goes back to the height of the fork, even when the node no longer has a
        block there. */
    method HandleReorganization(newHeight: nat, tip: Hash) returns (ok: bool)
      requires ValidTree(tree) && tip in tree
      modifies this
      ensures confirmedBlockHeight == newHeight
      ensures ok <==> newHeight <= tree[tip].height
      ensures confirmedBlockHash == Rewound(tree, old(confirmedBlockHash), tip, newHeight)
      ensures !ok ==> confirmedBlockHash == old(confirmedBlockHash)
      ensures ok ==> && confirmedBlockHash.Some? && confirmedBlockHash.value in tree
                     && tree[confirmedBlockHash.value].height == newHeight
                     && (confirmedBlockHash.value == tip || IsAncestor(tree, confirmedBlockHash.value, tip))
    {
      confirmedBlockHeight := newHeight;
      BlockAtHeight(tree, tip, newHeight);
      var hash := BlockAt(tree, tip, newHeight);
      if hash.None? {
        return false;
      }
      confirmedBlockHash := hash;
      return true;
    }
  }

  /** The indexer and the confirmator of one node, with every reorganisation
      message delivered to the indexer before it sends the next block. */
  class Node {
    const indexer: Indexer
    const confirmator: TxConfirmator

    ghost function Now(): NodeState
      reads indexer, confirmator
    {
      NodeState(indexer.confirmedBlockHeight, indexer.confirmedBlockHash, confirmator.Now())
    }

    ghost function Settings(): Config {
      Config(confirmator.confirmationsNumber, confirmator.maxConfirmationTime)
    }

    ghost predicate Valid()
      reads indexer, confirmator
    {
      indexer.tree == confirmator.tree && NodeRuns.Valid(indexer.tree, Settings(), Now())
    }

    constructor (tree: Tree, confirmationsNumber: nat, maxConfirmationTime: nat, height: nat, hash: Option<Hash>)
      requires ValidTree(tree) && confirmationsNumber >= 1
      ensures Valid() && fresh(indexer) && fresh(confirmator) && indexer.tree == tree
      ensures Settings() == Config(confirmationsNumber, maxConfirmationTime)
      ensures Now() == NodeState(height, hash, State(map[], Window([], []), [], multiset{}, multiset{}))
    {
      hide ValidTree, ValidWindow, Account;
      indexer := new Indexer(tree, height, hash);
      confirmator := new TxConfirmator(tree, confirmationsNumber, maxConfirmationTime);
    }

    /** At start: the loaded blocks must have consecutive heights, and each goes to the
        confirmator while that is running, which stops when a fork is too long for it.
        Blocks that continue the window along one chain are all tracked. */
    method InitBlocksHandle(blocks: seq<Block>, lastBlockHeight: nat) returns (ok: bool, next: nat, running: bool)
      requires confirmator.Sound()
      requires (forall i | 0 <= i < |blocks| :: blocks[i].hash in confirmator.tree && confirmator.tree[blocks[i].hash] == blocks[i])
      modifies confirmator
      ensures confirmator.Sound()
      ensures ok <==> forall i | 0 <= i < |blocks| :: blocks[i].height == lastBlockHeight + i
      ensures ok ==> next == lastBlockHeight + |blocks|
      ensures !ok ==> lastBlockHeight <= next < lastBlockHeight + |blocks| && blocks[next - lastBlockHeight].height != next
      ensures ok && Continues(confirmator.tree, old(confirmator.latestBlocks), blocks) ==>
                && running && (old(confirmator.Valid()) ==> confirmator.Valid())
                && confirmator.Now().win == TrackAll(confirmator.confirmationsNumber, old(confirmator.Now()).win, blocks)
    {
      hide ValidWindow, KnownWindow, Account, Waiting, AfterFork, Ancestor, TracksAncestor, ForkPoint, Continues, Chain;
      ghost var w, t := confirmator.Now().win, confirmator.tree;
      next, running, ok := lastBlockHeight, true, true;
      for i := 0 to |blocks|
        invariant next == lastBlockHeight + i && confirmator.Sound()
        invariant forall j | 0 <= j < i :: blocks[j].height == lastBlockHeight + j
        invariant Continues(t, w.latest, blocks) ==>
            && running && (old(confirmator.Valid()) ==> confirmator.Valid())
            && confirmator.Now().win == TrackAll(confirmator.confirmationsNumber, w, blocks[..i])
      {
        if blocks[i].height != next {
          return false, next, running;
        }
        if running {
          if Continues(t, w.latest, blocks) {
            TrackedFollows(t, confirmator.confirmationsNumber, w, blocks, i);
          }
          assert blocks[..i + 1][..i] == blocks[..i];
          ghost var fork;
          running, fork := confirmator.HandleNewBlock(blocks[i]);
        }
        next := next + 1;
      }
      assert blocks[..|blocks|] == blocks;
    }

    /** A message with transactions: each is queued or confirmed, up to the first for
        which the Bitcoin node fails. */
    method HandleTxs(ids: seq<Txid>, now: nat, answers: Txid -> Answer) returns (ok: bool)
      requires confirmator.Valid()
      modifies confirmator`queue, confirmator`sent, confirmator`inserted
      ensures confirmator.Valid()
      ensures ok <==> forall id | id in ids :: answers(id) != Failed
      ensures var after := AfterTxs(confirmator.confirmationsNumber, old(confirmator.Now()), ids, now, answers);
              (ok <==> after.Some?) && (ok ==> confirmator.Now() == after.value)
    {
      hide Account, AfterTx, ValidWindow, ValidTree;
      ghost var s, n := confirmator.Now(), confirmator.confirmationsNumber;
      TxsBalance(n, s, ids, now, answers);
      for i := 0 to |ids|
        invariant confirmator.Valid() && (forall id | id in ids[..i] :: answers(id) != Failed)
        invariant AfterTxs(n, s, ids[..i], now, answers) == Some(confirmator.Now())
      {
        assert ids[..i + 1][..i] == ids[..i];
        ok := confirmator.HandleTxToConfirm(ids[i], now, answers(ids[i]));
        if !ok {
          return;
        }
      }
      assert ids[..|ids|] == ids;
      ok := true;
    }

    /** The controller's part: rewind the indexer, then queue the transactions again. */
    method HandleReorganization(txs: seq<Txid>, height: nat, turn: Turn) returns (ok: bool)
      requires confirmator.Valid() && indexer.tree == confirmator.tree && turn.Poll? && turn.laterTip in indexer.tree
      modifies indexer, confirmator`queue, confirmator`sent, confirmator`inserted
      ensures confirmator.Valid() && indexer.confirmedBlockHeight == height
      ensures indexer.confirmedBlockHash == Rewound(indexer.tree, old(indexer.confirmedBlockHash), turn.laterTip, height)
      ensures ok <==> forall id | id in txs :: turn.answers(id) != Failed
      ensures var after := AfterTxs(confirmator.confirmationsNumber, old(confirmator.Now()), txs, turn.now, turn.answers);
              (ok <==> after.Some?) && (ok ==> confirmator.Now() == after.value)
    {
      hide Account, ValidWindow, ValidTree, AfterTxs, Rewound;
      var _ := indexer.HandleReorganization(height, turn.laterTip);
      ok := HandleTxs(txs, turn.now, turn.answers);
    }

    /** The block reaches the confirmator, and a reorganisation it reports is handled. A
        block that does not diverge never fails; one that diverges, in step, fails exactly
        when no ancestor of it is tracked or a transaction cannot be queued again. */
    method Deliver(b: Block, turn: Turn, ghost s: NodeState) returns (ok: bool)
      requires confirmator.Valid() && indexer.tree == confirmator.tree && turn.Poll? && turn.laterTip in indexer.tree
      requires b.hash in indexer.tree && indexer.tree[b.hash] == b && s.conf == confirmator.Now()
      requires indexer.confirmedBlockHeight == b.height && indexer.confirmedBlockHash == Some(b.hash)
      modifies indexer, confirmator
      ensures var after := AfterIndexed(indexer.tree, confirmator.confirmationsNumber, s, b, turn);
              (ok <==> after.Some?) && (ok ==> Now() == after.value)
      ensures !Diverges(old(confirmator.latestBlocks), b) ==> ok
    {
      hide Account, ValidTree, ValidWindow, AfterBlock, AfterFork, AfterTxs, Rewound, TracksAncestor, ForkPoint, Meets, Ancestor;
      ghost var t, latest := indexer.tree, confirmator.latestBlocks;
      var seen := |confirmator.sent|;
      ghost var fork;
      ok, fork := confirmator.HandleNewBlock(b);
      if !ok {
        return;
      }
      SentByBlock(confirmator.confirmationsNumber, s.conf, b);
      if seen < |confirmator.sent| && confirmator.sent[|confirmator.sent| - 1].Reorganization? {
        ForkIsUnique(t, latest, b, fork, ForkOf(t, s.conf, b));
        SentByFork(s.conf, b, fork);
        var m := confirmator.sent[|confirmator.sent| - 1];
        ok := HandleReorganization(m.txs, m.height, turn);
      } else if Diverges(latest, b) {
        SentByFork(s.conf, b, fork);
      }
    }

    /** One turn, as the state machine takes it. */
    method Step(turn: Turn) returns (ok: bool)
      requires Valid() && Known(indexer.tree, turn)
      modifies indexer, confirmator
      ensures var after := AfterTurn(indexer.tree, Settings(), old(Now()), turn);
              (ok <==> after.Some?) && (ok ==> Now() == after.value && Valid())
      ensures ok <==> !Fails(indexer.tree, old(Now()), turn)
    {
      hide Account, ValidTree, ValidWindow, AfterTxs, AfterIndexed, AfterCleanUp, NextBlock, Fails, LockStep;
      ghost var t, c, s := indexer.tree, Settings(), Now();
      TurnFails(t, c, s, turn);
      ConfirmatorValid(t, c, s);
      match turn {
        case Poll(count, tip, _, _, _) =>
          var r := indexer.HandleNewBlocks(count, tip);
          ok := true;
          if r.Sent? {
            ok := Deliver(r.block, turn, s);
          }
        case Submit(ids, now, replies) =>
          ok := HandleTxs(ids, now, replies);
        case CleanUp(now) =>
          ok := confirmator.CleanUpWaitingTxs(now);
      }
      if ok {
        TurnKeeps(t, c, s, turn);
      }
    }

    /** Every run: it is a run of the state machine, stops exactly at a turn that fails,
        and otherwise ends with what every run keeps. */
    method Run(turns: seq<Turn>) returns (ok: bool)
      requires Valid() && AllKnown(indexer.tree, turns)
      modifies indexer, confirmator
      ensures var after := AfterRun(indexer.tree, Settings(), old(Now()), turns);
              (ok <==> after.Some?) && (ok ==> Now() == after.value && Valid())
      ensures ok <==> forall i | 0 <= i < |turns| :: !FailsAt(indexer.tree, Settings(), old(Now()), turns, i)
      ensures ok ==> && (Settings().n >= 2 ==> Chain(indexer.tree, Now().conf.win.History()))
                     && old(confirmator.final) <= confirmator.final
                     && old(Confirmed(confirmator.sent)) <= Confirmed(confirmator.sent) <= confirmator.inserted
      ensures ok ==> forall id | id in old(confirmator.queue) ::
                || Kept(confirmator.queue.Keys, Confirmed(confirmator.sent), old(Confirmed(confirmator.sent)), id)
                || ExpiredIn(indexer.tree, Settings(), old(Now()), turns, id)
      ensures ok ==> forall id | Confirmed(confirmator.sent)[id] > old(Confirmed(confirmator.sent))[id] ::
                JustifiedIn(indexer.tree, Settings(), old(Now()), turns, id)
      ensures ok ==> forall id | id in confirmator.queue ::
                || (id in old(confirmator.queue) && confirmator.queue[id] == old(confirmator.queue)[id])
                || CameIn(indexer.tree, Settings(), old(Now()), turns, id, confirmator.queue[id])
    {
      hide ValidTree, ValidWindow, Account, LockStep, AfterTurn, FailsAt, Fails, Confirmed, ExpiredIn, Kept, Chain, JustifiedIn, CameIn;
      ghost var t, c, s := indexer.tree, Settings(), Now();
      RunFails(t, c, s, turns);
      ok := true;
      for i := 0 to |turns|
        invariant ok && Valid() && AfterRun(t, c, s, turns[..i]) == Some(Now())
      {
        assert turns[..i + 1][..i] == turns[..i];
        ok := Step(turns[i]);
        if !ok {
          RunStops(t, c, s, turns, i + 1);
          return;
        }
      }
      assert turns[..|turns|] == turns;
      RunKeeps(t, c, s, turns);
      RunExplained(t, c, s, turns);
    }
  }
}
