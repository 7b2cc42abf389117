/** Runs of a node: the indexer, the confirmator and the controller as one state
    machine, with every reorganisation message delivered before the next block. */
module NodeRuns {
  import opened Options
  import opened Blocks
  import opened Confirmations
  import opened ConfirmatorSpec

  /** The block at a height of the chain that ends at `tip`, if it is that long. */
  function BlockAt(t: Tree, tip: Hash, height: nat): Option<Hash> {
    if tip in t && height <= t[tip].height then Ancestor(t, tip, t[tip].height - height) else None
  }

  lemma BlockAtHeight(t: Tree, tip: Hash, height: nat)
    requires ValidTree(t) && tip in t
    ensures BlockAt(t, tip, height).Some? <==> height <= t[tip].height
    ensures BlockAt(t, tip, height).Some? ==>
              BlockAt(t, tip, height).value in t && t[BlockAt(t, tip, height).value].height == height
    ensures BlockAt(t, tip, height).Some? ==>
              BlockAt(t, tip, height).value == tip || IsAncestor(t, BlockAt(t, tip, height).value, tip)
  {
    hide ValidTree;
    if height <= t[tip].height {
      AncestorHeight(t, tip, t[tip].height - height);
    }
  }

  /** The last indexed block, and the confirmator. */
  datatype NodeState = NodeState(height: nat, hash: Option<Hash>, conf: State)

  /** A turn of the node. In a poll the Bitcoin node is asked for its block count, for
      the next block of its chain, for the chain again if there is a reorganisation,
      and for transactions; the chain may change in between. */
  datatype Turn =
    | Poll(count: nat, tip: Hash, laterTip: Hash, now: nat, answers: Txid -> Answer)
    | Submit(ids: seq<Txid>, submittedAt: nat, replies: Txid -> Answer)
    | CleanUp(at: nat)

  /** The confirmations a transaction needs and how long it may wait for them. */
  datatype Config = Config(n: nat, max: nat)

  // ---------- one turn

  datatype Polled = Idle | Error | Sent(block: Block)

  /** What the indexer does with the chain that ends at `tip`. */
  function NextBlock(t: Tree, height: nat, hash: Option<Hash>, count: nat, tip: Hash): Polled {
    if count == height then Idle
    else match BlockAt(t, tip, height + 1)
      case None => Error
      case Some(h) => if hash == Some(h) then Idle else if h in t then Sent(t[h]) else Error
  }

  ghost function Rewound(t: Tree, hash: Option<Hash>, tip: Hash, height: nat): Option<Hash> {
    if tip in t && height <= t[tip].height then BlockAt(t, tip, height) else hash
  }

  ghost predicate Forks(t: Tree, s: State, b: Block) {
    exists i: nat :: Fork(t, s.win.latest, b, i)
  }

  ghost function ForkOf(t: Tree, s: State, b: Block): (i: nat)
    requires Forks(t, s, b)
    ensures Fork(t, s.win.latest, b, i)
  {
    var i: nat :| Fork(t, s.win.latest, b, i);
    i
  }

  /** The block was indexed and reaches the confirmator. */
  ghost function AfterIndexed(t: Tree, n: nat, s: NodeState, b: Block, turn: Turn): Option<NodeState>
    requires ValidTree(t) && b.hash in t && t[b.hash] == b && turn.Poll?
  {
    if !Diverges(s.conf.win.latest, b) then Some(NodeState(b.height, Some(b.hash), AfterBlock(n, s.conf, b)))
    else if !Forks(t, s.conf, b) then None
    else
      var i := ForkOf(t, s.conf, b);
      ForkHeight(t, s.conf.win.latest, b, i);
      var height := b.height - (|s.conf.win.latest| - i);
      match AfterTxs(n, AfterFork(s.conf, b, i), Orphaned(s.conf, i), turn.now, turn.answers)
      case None => None
      case Some(conf) => Some(NodeState(height, Rewound(t, Some(b.hash), turn.laterTip, height), conf))
  }

  ghost function AfterTurn(t: Tree, c: Config, s: NodeState, turn: Turn): Option<NodeState>
    requires ValidTree(t)
  {
    match turn
    case Poll(count, tip, _, _, _) =>
      var r := NextBlock(t, s.height, s.hash, count, tip);
      if r.Sent? then assert r.block.hash in t && t[r.block.hash] == r.block; AfterIndexed(t, c.n, s, r.block, turn) else Some(s)
    case Submit(ids, now, replies) =>
      (match AfterTxs(c.n, s.conf, ids, now, replies)
       case None => None
       case Some(conf) => Some(s.(conf := conf)))
    case CleanUp(now) =>
      if forall id | id in s.conf.queue :: s.conf.queue[id] <= now then Some(s.(conf := AfterCleanUp(c.max, s.conf, now))) else None
  }

  // ---------- what every turn keeps

  ghost predicate LockStep(t: Tree, s: NodeState) {
    s.conf.win.latest != [] ==>
      var newest := s.conf.win.latest[|s.conf.win.latest| - 1].hash;
      newest in t && t[newest].height == s.height
  }

  /** Between two turns: a valid window, a balanced account, and the last indexed
      height is that of the newest tracked block. */
  ghost predicate Valid(t: Tree, c: Config, s: NodeState) {
    ValidTree(t) && c.n >= 1 && ValidWindow(t, c.n, s.conf.win) && Account(s.conf) && LockStep(t, s)
  }

  lemma ConfirmatorValid(t: Tree, c: Config, s: NodeState)
    requires Valid(t, c, s)
    ensures ValidState(t, c.n, s.conf)
  {
    hide Account, ValidTree;
    ValidIsKnown(t, c.n, s.conf.win);
  }

  ghost predicate Known(t: Tree, turn: Turn) {
    turn.Poll? ==> turn.tip in t && turn.laterTip in t
  }

  /** Every block sent is a known block one height above the newest tracked one. */
  lemma SentInStep(t: Tree, c: Config, s: NodeState, turn: Turn)
    requires Valid(t, c, s) && Known(t, turn) && turn.Poll?
    requires NextBlock(t, s.height, s.hash, turn.count, turn.tip).Sent?
    ensures var b := NextBlock(t, s.height, s.hash, turn.count, turn.tip).block;
            && b.hash in t && t[b.hash] == b && b.height == s.height + 1 && b.prev.Some?
            && InStep(t, s.conf.win.latest, b)
  {
    hide ValidWindow, Account, BlockAt;
    BlockAtHeight(t, turn.tip, s.height + 1);
    var b := NextBlock(t, s.height, s.hash, turn.count, turn.tip).block;
    assert Rooted(t, b);
  }

  /** From `s` to `next`: final blocks stay final, confirmations are not taken back, and
      what waited still does, was confirmed, or expired in the turn. */
  ghost predicate Keeps(c: Config, s: NodeState, turn: Turn, next: NodeState) {
    && s.conf.win.final <= next.conf.win.final
    && Confirmed(s.conf.sent) <= Confirmed(next.conf.sent)
    && (forall id | id in s.conf.queue ::
          || Kept(next.conf.queue.Keys, Confirmed(next.conf.sent), Confirmed(s.conf.sent), id)
          || (turn.CleanUp? && Expired(c.max, s.conf, turn.at, id)))
  }

  lemma TrackedKeeps(t: Tree, c: Config, s: NodeState, b: Block, turn: Turn)
    requires Valid(t, c, s) && b.hash in t && t[b.hash] == b && Follows(s.conf.win.latest, b)
    ensures var next := NodeState(b.height, Some(b.hash), AfterBlock(c.n, s.conf, b));
            Valid(t, c, next) && Keeps(c, s, turn, next)
  {
    hide ValidTree, ValidWindow, KnownWindow, Account, Confirmed, ConfirmedBy, Waiting, Expired, Track;
    var next := NodeState(b.height, Some(b.hash), AfterBlock(c.n, s.conf, b));
    TrackKeepsWindow(t, c.n, s.conf.win, b);
    ValidIsKnown(t, c.n, s.conf.win);
    BlockBalances(t, c.n, s.conf, b);
    NewestTracked(c.n, s.conf.win, b);
    var confirmed := ConfirmedBy(c.n, s.conf.win.latest, s.conf.queue.Keys, b);
    forall id | id in s.conf.queue && id !in next.conf.queue
      ensures Kept(next.conf.queue.Keys, Confirmed(next.conf.sent), Confirmed(s.conf.sent), id) {
      assert id in multiset(confirmed);
    }
  }

  lemma NewestTracked(n: nat, w: Window, b: Block)
    ensures var next := Track(n, w, b);
            w.final <= next.final && (next.latest != [] ==> next.latest[|next.latest| - 1].hash == b.hash)
  {
  }

  lemma ReorganisedKeeps(t: Tree, c: Config, s: NodeState, b: Block, turn: Turn, i: nat, next: NodeState)
    requires Valid(t, c, s) && b.hash in t && t[b.hash] == b && InStep(t, s.conf.win.latest, b)
    requires Fork(t, s.conf.win.latest, b, i) && |s.conf.win.latest| - i <= b.height && turn.Poll?
    requires AfterTxs(c.n, AfterFork(s.conf, b, i), Orphaned(s.conf, i), turn.now, turn.answers) == Some(next.conf)
    requires next.height == b.height - (|s.conf.win.latest| - i)
    ensures Valid(t, c, next) && Keeps(c, s, turn, next)
  {
    hide Meets, Confirmed, Account, Dropped, AfterTxs;
    var forked := AfterFork(s.conf, b, i);
    ForkKeepsWindow(t, c.n, s.conf.win, b, i);
    ForkBalances(s.conf, b, i);
    TxsBalance(c.n, forked, Orphaned(s.conf, i), turn.now, turn.answers);
    ForkInStep(t, s.conf.win.latest, b);
    forall id | id in s.conf.queue
      ensures Kept(next.conf.queue.Keys, Confirmed(next.conf.sent), Confirmed(s.conf.sent), id) {
      assert id in forked.queue || id in Orphaned(s.conf, i);
    }
  }

  lemma SubmitKeeps(t: Tree, c: Config, s: NodeState, turn: Turn, conf: State)
    requires Valid(t, c, s) && turn.Submit? && AfterTxs(c.n, s.conf, turn.ids, turn.submittedAt, turn.replies) == Some(conf)
    ensures Valid(t, c, s.(conf := conf)) && Keeps(c, s, turn, s.(conf := conf))
  {
    hide Confirmed, Account, AfterTxs, ValidWindow, ValidTree;
    TxsBalance(c.n, s.conf, turn.ids, turn.submittedAt, turn.replies);
  }

  lemma CleanUpKeeps(t: Tree, c: Config, s: NodeState, turn: Turn)
    requires Valid(t, c, s) && turn.CleanUp?
    ensures var next := s.(conf := AfterCleanUp(c.max, s.conf, turn.at));
            Valid(t, c, next) && Keeps(c, s, turn, next)
  {
    CleanUpBalances(c.max, s.conf, turn.at);
    hide Confirmed, Account, ValidWindow, ValidTree;
  }

  lemma TurnKeeps(t: Tree, c: Config, s: NodeState, turn: Turn)
    requires Valid(t, c, s) && Known(t, turn) && AfterTurn(t, c, s, turn).Some?
    ensures Valid(t, c, AfterTurn(t, c, s, turn).value) && Keeps(c, s, turn, AfterTurn(t, c, s, turn).value)
  {
    hide ValidWindow, Account, ValidTree, Confirmed, AfterBlock, AfterFork, AfterTxs, AfterCleanUp, NextBlock, Rewound, Orphaned;
    match turn
    case Poll(count, tip, _, _, _) =>
      var r := NextBlock(t, s.height, s.hash, count, tip);
      if r.Sent? {
        SentInStep(t, c, s, turn);
        if !Diverges(s.conf.win.latest, r.block) {
          TrackedKeeps(t, c, s, r.block, turn);
        } else {
          var i := ForkOf(t, s.conf, r.block);
          ForkHeight(t, s.conf.win.latest, r.block, i);
          ReorganisedKeeps(t, c, s, r.block, turn, i, AfterTurn(t, c, s, turn).value);
        }
      }
    case Submit(ids, now, replies) => SubmitKeeps(t, c, s, turn, AfterTurn(t, c, s, turn).value.conf);
    case CleanUp(now) => CleanUpKeeps(t, c, s, turn);
  }

  // ---------- when a turn fails

  /** A turn fails exactly in these cases: a block diverges and no ancestor of it is
      tracked, the Bitcoin node fails for a transaction that is queued, or the clock
      went backwards. */
  ghost predicate Fails(t: Tree, s: NodeState, turn: Turn) {
    match turn
    case Poll(count, tip, _, _, answers) =>
      var r := NextBlock(t, s.height, s.hash, count, tip);
      && r.Sent? && Diverges(s.conf.win.latest, r.block)
      && (|| !TracksAncestor(t, s.conf.win.latest, r.block)
          || exists i: nat :: ForkPoint(t, s.conf.win.latest, r.block, i) &&
                              exists id :: id in Orphaned(s.conf, i) && answers(id) == Failed)
    case Submit(ids, _, replies) => exists id :: id in ids && replies(id) == Failed
    case CleanUp(now) => exists id :: id in s.conf.queue && s.conf.queue[id] > now
  }

  lemma ForkPointIsUnique(t: Tree, latest: seq<BlockInfo>, b: Block, i: nat, j: nat)
    requires ForkPoint(t, latest, b, i) && ForkPoint(t, latest, b, j)
    ensures i == j
  {
    hide IsAncestor;
  }

  lemma DivergenceFails(t: Tree, c: Config, s: NodeState, b: Block, turn: Turn)
    requires Valid(t, c, s) && b.hash in t && t[b.hash] == b && InStep(t, s.conf.win.latest, b) && turn.Poll?
    requires Diverges(s.conf.win.latest, b)
    ensures AfterIndexed(t, c.n, s, b, turn).None? <==>
            || !TracksAncestor(t, s.conf.win.latest, b)
            || exists i: nat :: ForkPoint(t, s.conf.win.latest, b, i) &&
                                exists id :: id in Orphaned(s.conf, i) && turn.answers(id) == Failed
  {
    hide Confirmed, Account, Dropped, AfterTxs, IsAncestor, Meets, Rewound, Hashes, Chain, ValidTree;
    var latest := s.conf.win.latest;
    ForkInStep(t, latest, b);
    if Forks(t, s.conf, b) {
      var i := ForkOf(t, s.conf, b);
      ForkHeight(t, latest, b, i);
      ForkBalances(s.conf, b, i);
      TxsBalance(c.n, AfterFork(s.conf, b, i), Orphaned(s.conf, i), turn.now, turn.answers);
      forall j: nat | ForkPoint(t, latest, b, j) ensures i == j {
        ForkPointIsUnique(t, latest, b, i, j);
      }
    } else {
      NoForkNoMeet(t, latest, b);
    }
  }

  /** If the walk meets the window at all, it does so at a newest block. */
  lemma NoForkNoMeet(t: Tree, latest: seq<BlockInfo>, b: Block)
    requires forall i: nat :: !Fork(t, latest, b, i)
    ensures forall i | 0 <= i < |latest| :: !Meets(t, latest, b, i)
  {
    hide Meets;
    var k := |latest|;
    while k > 0
      invariant 0 <= k <= |latest|
      invariant forall i | k <= i < |latest| :: !Meets(t, latest, b, i)
    {
      assert !Fork(t, latest, b, k - 1);
      k := k - 1;
    }
  }

  lemma TurnFails(t: Tree, c: Config, s: NodeState, turn: Turn)
    requires Valid(t, c, s) && Known(t, turn)
    ensures AfterTurn(t, c, s, turn).None? <==> Fails(t, s, turn)
  {
    hide ValidWindow, Account, ValidTree, Confirmed, AfterTxs, AfterCleanUp, NextBlock, Orphaned, TracksAncestor, ForkPoint;
    match turn
    case Poll(count, tip, _, _, _) =>
      var r := NextBlock(t, s.height, s.hash, count, tip);
      if r.Sent? {
        SentInStep(t, c, s, turn);
        if Diverges(s.conf.win.latest, r.block) {
          DivergenceFails(t, c, s, r.block, turn);
        }
      }
    case Submit(ids, now, replies) => TxsBalance(c.n, s.conf, ids, now, replies);
    case CleanUp(now) =>
  }

  // ---------- runs

  ghost function AfterRun(t: Tree, c: Config, s: NodeState, turns: seq<Turn>): Option<NodeState>
    requires ValidTree(t)
  {
    if turns == [] then Some(s)
    else
      var k := |turns| - 1;
      match AfterRun(t, c, s, turns[..k])
      case None => None
      case Some(s') => AfterTurn(t, c, s', turns[k])
  }

  ghost predicate AllKnown(t: Tree, turns: seq<Turn>) {
    forall i | 0 <= i < |turns| :: Known(t, turns[i])
  }

  /** The transaction expired in some turn of the run. */
  ghost predicate ExpiredIn(t: Tree, c: Config, s: NodeState, turns: seq<Turn>, id: Txid)
    requires ValidTree(t)
  {
    exists i :: 0 <= i < |turns| && turns[i].CleanUp? && AfterRun(t, c, s, turns[..i]).Some? &&
                Expired(c.max, AfterRun(t, c, s, turns[..i]).value.conf, turns[i].at, id)
  }

  /** Every run: whatever chains the Bitcoin node reports, whatever is submitted and
      cleaned up in between, the indexer and the confirmator stay in step, the final and
      the tracked blocks stay one chain from two confirmations on, final blocks stay
      final, no transaction is confirmed more often than it entered the queue, and what
      waited still does, was confirmed or expired. */
  lemma {:induction false} RunKeeps(t: Tree, c: Config, s: NodeState, turns: seq<Turn>)
    requires Valid(t, c, s) && AllKnown(t, turns) && AfterRun(t, c, s, turns).Some?
    ensures var next := AfterRun(t, c, s, turns).value;
            && Valid(t, c, next)
            && (c.n >= 2 ==> Chain(t, next.conf.win.History()))
            && s.conf.win.final <= next.conf.win.final
            && Confirmed(s.conf.sent) <= Confirmed(next.conf.sent) <= next.conf.inserted
            && (forall id | id in s.conf.queue ::
                  || Kept(next.conf.queue.Keys, Confirmed(next.conf.sent), Confirmed(s.conf.sent), id)
                  || ExpiredIn(t, c, s, turns, id))
  {
    if turns == [] {
      AtMostInserted(s.conf);
    } else {
      var k := |turns| - 1;
      RunKeeps(t, c, s, turns[..k]);
      hide AfterTurn, ValidWindow, Account, ValidTree, Confirmed, Chain, Expired;
      var before, next := AfterRun(t, c, s, turns[..k]).value, AfterRun(t, c, s, turns).value;
      TurnKeeps(t, c, before, turns[k]);
      ValidMeans(t, c, next);
      forall id | id in s.conf.queue && !Kept(next.conf.queue.Keys, Confirmed(next.conf.sent), Confirmed(s.conf.sent), id)
        ensures ExpiredIn(t, c, s, turns, id) {
        LostInRun(t, c, s, turns, id);
      }
    }
  }

  lemma AtMostInserted(s: State)
    requires Account(s)
    ensures Confirmed(s.sent) <= s.inserted
  {
    hide Confirmed;
  }

  lemma ValidMeans(t: Tree, c: Config, s: NodeState)
    requires Valid(t, c, s)
    ensures Confirmed(s.conf.sent) <= s.conf.inserted
    ensures c.n >= 2 ==> Chain(t, s.conf.win.History())
  {
    hide Confirmed, Chain;
    AtMostInserted(s.conf);
  }

  lemma LostInRun(t: Tree, c: Config, s: NodeState, turns: seq<Turn>, id: Txid)
    requires ValidTree(t) && turns != [] && AfterRun(t, c, s, turns).Some? && id in s.conf.queue
    requires var k := |turns| - 1;
             var before, next := AfterRun(t, c, s, turns[..k]).value, AfterRun(t, c, s, turns).value;
             && Keeps(c, before, turns[k], next)
             && Confirmed(s.conf.sent) <= Confirmed(before.conf.sent)
             && (|| Kept(before.conf.queue.Keys, Confirmed(before.conf.sent), Confirmed(s.conf.sent), id)
                 || ExpiredIn(t, c, s, turns[..k], id))
             && !Kept(next.conf.queue.Keys, Confirmed(next.conf.sent), Confirmed(s.conf.sent), id)
    ensures ExpiredIn(t, c, s, turns, id)
  {
    hide Confirmed, AfterTurn, Expired, ValidTree;
    var k := |turns| - 1;
    var before := AfterRun(t, c, s, turns[..k]).value;
    if ExpiredIn(t, c, s, turns[..k], id) {
      var i :| 0 <= i < k && turns[..k][i].CleanUp? && AfterRun(t, c, s, turns[..k][..i]).Some? &&
               Expired(c.max, AfterRun(t, c, s, turns[..k][..i]).value.conf, turns[..k][i].at, id);
      assert turns[..k][..i] == turns[..i] && turns[..k][i] == turns[i];
    } else {
      assert Expired(c.max, before.conf, turns[k].at, id);
    }
  }

  ghost predicate FailsAt(t: Tree, c: Config, s: NodeState, turns: seq<Turn>, i: nat)
    requires ValidTree(t) && i < |turns|
  {
    AfterRun(t, c, s, turns[..i]).Some? && Fails(t, AfterRun(t, c, s, turns[..i]).value, turns[i])
  }

  lemma FailsInPrefix(t: Tree, c: Config, s: NodeState, turns: seq<Turn>, k: nat, i: nat)
    requires ValidTree(t) && i < k <= |turns|
    ensures FailsAt(t, c, s, turns[..k], i) <==> FailsAt(t, c, s, turns, i)
  {
    hide Fails, AfterRun;
    assert turns[..k][..i] == turns[..i];
  }

  lemma LastTurn(t: Tree, c: Config, s: NodeState, turns: seq<Turn>)
    requires Valid(t, c, s) && AllKnown(t, turns) && turns != []
    ensures var k := |turns| - 1;
            AfterRun(t, c, s, turns).None? <==> AfterRun(t, c, s, turns[..k]).None? || FailsAt(t, c, s, turns, k)
    ensures var k := |turns| - 1;
            FailsAt(t, c, s, turns, k) ==> AfterRun(t, c, s, turns[..k]).Some?
  {
    hide Fails, AfterTurn, ValidTree, ValidWindow, Account, Confirmed, Kept, ExpiredIn;
    var k := |turns| - 1;
    if AfterRun(t, c, s, turns[..k]).Some? {
      RunKeeps(t, c, s, turns[..k]);
      TurnFails(t, c, AfterRun(t, c, s, turns[..k]).value, turns[k]);
    }
  }

  /** A run stops exactly at a turn that fails. */
  lemma {:induction false} RunFails(t: Tree, c: Config, s: NodeState, turns: seq<Turn>)
    requires Valid(t, c, s) && AllKnown(t, turns)
    ensures AfterRun(t, c, s, turns).None? <==> exists i :: 0 <= i < |turns| && FailsAt(t, c, s, turns, i)
  {
    hide FailsAt, ValidTree, ValidWindow, Account, LockStep;
    if turns == [] {
      assert AfterRun(t, c, s, turns) == Some(s);
    } else {
      hide AfterRun;
      var k := |turns| - 1;
      RunFails(t, c, s, turns[..k]);
      LastTurn(t, c, s, turns);
      forall i | 0 <= i < k ensures FailsAt(t, c, s, turns[..k], i) <==> FailsAt(t, c, s, turns, i) {
        FailsInPrefix(t, c, s, turns, k, i);
      }
    }
  }

  lemma {:induction false} RunStops(t: Tree, c: Config, s: NodeState, turns: seq<Turn>, k: nat)
    requires ValidTree(t) && k <= |turns| && AfterRun(t, c, s, turns[..k]).None?
    ensures AfterRun(t, c, s, turns).None?
    decreases |turns|
  {
    hide AfterTurn;
    if k < |turns| {
      var n := |turns| - 1;
      assert turns[..n][..k] == turns[..k];
      RunStops(t, c, s, turns[..n], k);
    } else {
      assert turns[..k] == turns;
    }
  }

  // ---------- the messages of a block

  lemma SentByBlock(n: nat, s: State, b: Block)
    ensures var sent := AfterBlock(n, s, b).sent;
            |sent| > |s.sent| ==> !sent[|sent| - 1].Reorganization?
  {
    hide Waiting, ConfirmedBy;
  }

  lemma SentByFork(s: State, b: Block, i: nat)
    requires i < |s.win.latest| && |s.win.latest| - i <= b.height
    ensures AfterFork(s, b, i).sent == s.sent + [Reorganization(Orphaned(s, i), b.height - (|s.win.latest| - i))]
  {
  }

  // ---------- blocks loaded at start

  /** The blocks are one chain that goes on from the newest tracked block. */
  ghost predicate Continues(t: Tree, latest: seq<BlockInfo>, blocks: seq<Block>) {
    && Chain(t, Hashes(Infos(blocks)))
    && (blocks != [] ==> Follows(latest, blocks[0]))
  }

  lemma TrackedFollows(t: Tree, n: nat, w: Window, blocks: seq<Block>, i: nat)
    requires Continues(t, w.latest, blocks) && i < |blocks|
    requires forall j | 0 <= j < |blocks| :: blocks[j].hash in t && t[blocks[j].hash] == blocks[j]
    ensures Follows(TrackAll(n, w, blocks[..i]).latest, blocks[i])
  {
    if i > 0 {
      var c := Hashes(Infos(blocks));
      assert c[i] == blocks[i].hash && c[i - 1] == blocks[i - 1].hash;
      assert t[c[i]].prev == Some(c[i - 1]);
      hide Chain, Hashes, Infos;
      var init := blocks[..i];
      assert TrackAll(n, w, init) == Track(n, TrackAll(n, w, init[..i - 1]), init[i - 1]);
      NewestTracked(n, TrackAll(n, w, init[..i - 1]), init[i - 1]);
    }
  }
}
