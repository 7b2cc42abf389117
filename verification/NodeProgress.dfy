/** How far a node gets: it catches up with a chain that stays, unless that chain is no
    higher than what it indexed. */
module NodeProgress {
  import opened Options
  import opened Blocks
  import opened Confirmations
  import opened ConfirmatorSpec
  import opened NodeRuns

  /** A poll of a Bitcoin node that stays at `tip` and answers for every transaction. */
  ghost predicate Steady(t: Tree, tip: Hash, turn: Turn) {
    && tip in t && turn.Poll? && turn.count == t[tip].height && turn.tip == turn.laterTip == tip
    && (forall id :: turn.answers(id) != Failed)
  }

  /** The last indexed hash is not that of a block at the next height. */
  ghost predicate Fits(t: Tree, s: NodeState) {
    s.hash.Some? ==> s.hash.value in t && t[s.hash.value].height != s.height + 1
  }

  ghost predicate NewestIs(s: NodeState, h: Option<Hash>) {
    s.conf.win.latest != [] && Some(s.conf.win.latest[|s.conf.win.latest| - 1].hash) == h
  }

  /** The newest tracked block, if any, is on the chain. */
  ghost predicate OnChain(t: Tree, s: NodeState, tip: Hash) {
    s.conf.win.latest == [] || NewestIs(s, BlockAt(t, tip, s.height))
  }

  /** The node follows the chain. */
  ghost predicate Joined(t: Tree, c: Config, s: NodeState, tip: Hash) {
    && Valid(t, c, s) && tip in t && s.height <= t[tip].height && s.hash == BlockAt(t, tip, s.height)
    && OnChain(t, s, tip) && (c.n >= 2 ==> s.conf.win.latest != [])
  }

  /** The tip is the last indexed block, and the newest tracked one if any is. */
  ghost predicate Reached(t: Tree, c: Config, s: NodeState, tip: Hash)
    requires tip in t
  {
    s.height == t[tip].height && s.hash == Some(tip) && (c.n >= 2 ==> NewestIs(s, Some(tip)))
  }

  ghost function NextOf(t: Tree, s: NodeState, tip: Hash): Block
    requires ValidTree(t) && tip in t && s.height < t[tip].height
  {
    BlockAtHeight(t, tip, s.height + 1);
    t[BlockAt(t, tip, s.height + 1).value]
  }

  lemma ParentAt(t: Tree, tip: Hash, height: nat)
    requires ValidTree(t) && tip in t && height < t[tip].height
    ensures BlockAt(t, tip, height).Some? && BlockAt(t, tip, height + 1).Some?
    ensures BlockAt(t, tip, height + 1).value in t && t[BlockAt(t, tip, height + 1).value].prev == BlockAt(t, tip, height)
  {
    hide ValidTree;
    BlockAtHeight(t, tip, height);
    BlockAtHeight(t, tip, height + 1);
  }

  lemma SendsNext(t: Tree, s: NodeState, tip: Hash, turn: Turn)
    requires ValidTree(t) && Steady(t, tip, turn) && Fits(t, s) && s.height < t[tip].height
    ensures NextBlock(t, s.height, s.hash, turn.count, tip) == Sent(NextOf(t, s, tip))
    ensures NextOf(t, s, tip).prev == BlockAt(t, tip, s.height) && NextOf(t, s, tip).prev.Some?
    ensures BlockAt(t, tip, s.height + 1) == Some(NextOf(t, s, tip).hash)
  {
    hide BlockAt;
    BlockAtHeight(t, tip, s.height + 1);
    ParentAt(t, tip, s.height);
  }

  // ---------- one poll

  /** At the height of the tip or above nothing happens. */
  lemma StaysPut(t: Tree, c: Config, s: NodeState, tip: Hash, turn: Turn)
    requires ValidTree(t) && Steady(t, tip, turn) && s.height >= t[tip].height
    ensures AfterTurn(t, c, s, turn) == Some(s)
  {
    hide ValidTree;
  }

  /** On the chain, the next block is indexed and tracked. */
  lemma Advances(t: Tree, c: Config, s: NodeState, tip: Hash, turn: Turn)
    requires Valid(t, c, s) && Steady(t, tip, turn) && Fits(t, s) && s.height < t[tip].height && OnChain(t, s, tip)
    ensures AfterTurn(t, c, s, turn).Some?
    ensures var next := AfterTurn(t, c, s, turn).value;
            next.height == s.height + 1 && Joined(t, c, next, tip)
  {
    hide ValidTree, ValidWindow, Account, BlockAt, ConfirmedBy, Waiting, Confirmed, Chain, Hashes;
    var b := NextOf(t, s, tip);
    SendsNext(t, s, tip, turn);
    SentInStep(t, c, s, turn);
    assert !Diverges(s.conf.win.latest, b);
    assert AfterTurn(t, c, s, turn) == Some(NodeState(b.height, Some(b.hash), AfterBlock(c.n, s.conf, b)));
    TurnKeeps(t, c, s, turn);
    NewestTracked(c.n, s.conf.win, b);
    StillTracking(c.n, s.conf.win, b);
  }

  lemma StillTracking(n: nat, w: Window, b: Block)
    ensures n >= 2 ==> Track(n, w, b).latest != []
  {
  }

  /** Off the chain, the node goes back to the newest tracked block that is on it. */
  lemma Rejoins(t: Tree, c: Config, s: NodeState, tip: Hash, turn: Turn)
    requires Valid(t, c, s) && Steady(t, tip, turn) && Fits(t, s) && s.height < t[tip].height && !OnChain(t, s, tip)
    requires TracksAncestor(t, s.conf.win.latest, NextOf(t, s, tip))
    ensures AfterTurn(t, c, s, turn).Some?
    ensures var next := AfterTurn(t, c, s, turn).value;
            next.height < s.height && Joined(t, c, next, tip)
  {
    hide ValidTree, ValidWindow, Account, BlockAt, Orphaned, AfterTxs, TracksAncestor, ForkPoint, NextBlock, Rewound, IsAncestor, Ancestor;
    var b, latest := NextOf(t, s, tip), s.conf.win.latest;
    SendsNext(t, s, tip, turn);
    SentInStep(t, c, s, turn);
    assert Diverges(latest, b);
    TurnFails(t, c, s, turn);
    TurnKeeps(t, c, s, turn);
    var next := AfterTurn(t, c, s, turn).value;
    assert next == AfterIndexed(t, c.n, s, b, turn).value;
    BackAtFork(t, c, s, b, turn, next);
    var i := ForkOf(t, s.conf, b);
    ForkOnChain(t, tip, b, latest, i);
    NotNewest(t, latest, b, i);
    assert Rewound(t, Some(b.hash), tip, next.height) == BlockAt(t, tip, next.height) by { RewoundAt(t, Some(b.hash), tip, next.height); }
  }

  lemma RewoundAt(t: Tree, hash: Option<Hash>, tip: Hash, height: nat)
    requires tip in t && height <= t[tip].height
    ensures Rewound(t, hash, tip, height) == BlockAt(t, tip, height)
  {
  }

  /** The state after a reorganisation. */
  lemma BackAtFork(t: Tree, c: Config, s: NodeState, b: Block, turn: Turn, next: NodeState)
    requires Valid(t, c, s) && b.hash in t && t[b.hash] == b && turn.Poll? && Diverges(s.conf.win.latest, b)
    requires AfterIndexed(t, c.n, s, b, turn) == Some(next)
    ensures Forks(t, s.conf, b)
    ensures var i, latest := ForkOf(t, s.conf, b), s.conf.win.latest;
            && |latest| - i <= b.height && next.height == b.height - (|latest| - i)
            && next.hash == Rewound(t, Some(b.hash), turn.laterTip, next.height)
            && next.conf.win.latest == latest[..i + 1]
  {
    hide Account, Orphaned, Confirmed, Rewound, ValidTree, ValidWindow, Meets, AfterTxs;
    var i := ForkOf(t, s.conf, b);
    ForkHeight(t, s.conf.win.latest, b, i);
    ForkBalances(s.conf, b, i);
    TxsBalance(c.n, AfterFork(s.conf, b, i), Orphaned(s.conf, i), turn.now, turn.answers);
  }

  /** The fork is the block of the chain at its height. */
  lemma ForkOnChain(t: Tree, tip: Hash, b: Block, latest: seq<BlockInfo>, i: nat)
    requires ValidTree(t) && tip in t && b.hash in t && t[b.hash] == b && b.height <= t[tip].height
    requires BlockAt(t, tip, b.height) == Some(b.hash) && Fork(t, latest, b, i) && |latest| - i <= b.height
    ensures BlockAt(t, tip, b.height - (|latest| - i)) == Some(latest[i].hash)
  {
    hide Ancestor, ValidTree;
    AncestorSum(t, tip, t[tip].height - b.height, |latest| - i);
  }

  /** The newest tracked block is not the fork when the new block diverges. */
  lemma NotNewest(t: Tree, latest: seq<BlockInfo>, b: Block, i: nat)
    requires Diverges(latest, b) && Fork(t, latest, b, i) && b.hash in t && t[b.hash] == b
    ensures i + 1 < |latest|
  {
    FirstGeneration(t, b);
  }

  // ---------- polls in a row

  ghost predicate AllSteady(t: Tree, tip: Hash, turns: seq<Turn>) {
    forall i | 0 <= i < |turns| :: Steady(t, tip, turns[i])
  }

  lemma {:induction false} IdlesForever(t: Tree, c: Config, s: NodeState, tip: Hash, turns: seq<Turn>)
    requires ValidTree(t) && tip in t && AllSteady(t, tip, turns) && s.height >= t[tip].height
    ensures AfterRun(t, c, s, turns) == Some(s)
  {
    hide AfterTurn, ValidTree;
    if turns != [] {
      var k := |turns| - 1;
      IdlesForever(t, c, s, tip, turns[..k]);
      StaysPut(t, c, s, tip, turns[k]);
    }
  }

  /** Nothing stops the node from joining the chain: it is on it, or tracks a block of it. */
  ghost predicate CanJoin(t: Tree, s: NodeState, tip: Hash)
    requires ValidTree(t) && tip in t
  {
    s.height < t[tip].height ==> OnChain(t, s, tip) || TracksAncestor(t, s.conf.win.latest, NextOf(t, s, tip))
  }

  lemma JoinedFits(t: Tree, c: Config, s: NodeState, tip: Hash)
    requires Joined(t, c, s, tip)
    ensures Fits(t, s)
  {
    hide BlockAt;
    BlockAtHeight(t, tip, s.height);
  }

  lemma {:induction false} Climbs(t: Tree, c: Config, s: NodeState, tip: Hash, turns: seq<Turn>)
    requires Valid(t, c, s) && Fits(t, s) && tip in t && CanJoin(t, s, tip) && s.height < t[tip].height
    requires AllSteady(t, tip, turns) && turns != []
    ensures AfterRun(t, c, s, turns).Some?
    ensures var next := AfterRun(t, c, s, turns).value;
            Joined(t, c, next, tip) && (next.height >= |turns| - 1 || next.height == t[tip].height)
  {
    hide AfterTurn, ValidTree, ValidWindow, Account, LockStep, Fits, OnChain, Steady, TracksAncestor;
    var k := |turns| - 1;
    assert Steady(t, tip, turns[k]);
    if k == 0 {
      assert turns[..k] == [];
      if OnChain(t, s, tip) {
        Advances(t, c, s, tip, turns[k]);
      } else {
        Rejoins(t, c, s, tip, turns[k]);
      }
    } else {
      Climbs(t, c, s, tip, turns[..k]);
      var before := AfterRun(t, c, s, turns[..k]).value;
      if before.height == t[tip].height {
        StaysPut(t, c, before, tip, turns[k]);
      } else {
        JoinedFits(t, c, before, tip);
        Advances(t, c, before, tip, turns[k]);
      }
    }
  }

  /** Polled often enough with a chain that stays, a node that can join it ends at its tip
      if and only if the chain is higher than what it had indexed or it was there already.
      In particular a fork of the same height is never noticed. */
  lemma CatchesUp(t: Tree, c: Config, s: NodeState, tip: Hash, turns: seq<Turn>)
    requires Valid(t, c, s) && Fits(t, s) && tip in t && CanJoin(t, s, tip)
    requires AllSteady(t, tip, turns) && |turns| > t[tip].height
    ensures AfterRun(t, c, s, turns).Some?
    ensures Reached(t, c, AfterRun(t, c, s, turns).value, tip) <==> s.height < t[tip].height || Reached(t, c, s, tip)
  {
    hide AfterRun, ValidTree, ValidWindow, Account, LockStep, Fits, CanJoin;
    if s.height < t[tip].height {
      Climbs(t, c, s, tip, turns);
      assert BlockAt(t, tip, t[tip].height) == Some(tip);
    } else {
      IdlesForever(t, c, s, tip, turns);
    }
  }

  // ---------- a node that starts as the source does stays fit

  lemma TurnKeepsFit(t: Tree, c: Config, s: NodeState, turn: Turn)
    requires Valid(t, c, s) && Fits(t, s) && Known(t, turn) && AfterTurn(t, c, s, turn).Some?
    ensures Fits(t, AfterTurn(t, c, s, turn).value)
  {
    hide ValidTree, ValidWindow, Account, AfterTxs, AfterCleanUp, AfterBlock, NextBlock, Rewound, Meets;
    if turn.Poll? {
      var r := NextBlock(t, s.height, s.hash, turn.count, turn.tip);
      if r.Sent? {
        SentInStep(t, c, s, turn);
        var b, latest := r.block, s.conf.win.latest;
        if Diverges(latest, b) {
          var next := AfterTurn(t, c, s, turn).value;
          BackAtFork(t, c, s, b, turn, next);
          NotNewest(t, latest, b, ForkOf(t, s.conf, b));
          RewoundFits(t, b, turn.laterTip, next.height);
        }
      }
    }
  }

  lemma {:induction false} RunKeepsFit(t: Tree, c: Config, s: NodeState, turns: seq<Turn>)
    requires Valid(t, c, s) && Fits(t, s) && AllKnown(t, turns) && AfterRun(t, c, s, turns).Some?
    ensures Fits(t, AfterRun(t, c, s, turns).value)
  {
    hide AfterTurn, ValidTree, ValidWindow, Account, LockStep, Fits, Confirmed, Kept, ExpiredIn;
    if turns != [] {
      var k := |turns| - 1;
      RunKeepsFit(t, c, s, turns[..k]);
      RunKeeps(t, c, s, turns[..k]);
      TurnKeepsFit(t, c, AfterRun(t, c, s, turns[..k]).value, turns[k]);
    }
  }

  lemma RewoundFits(t: Tree, b: Block, tip: Hash, height: nat)
    requires ValidTree(t) && tip in t && b.hash in t && t[b.hash] == b && height + 1 < b.height
    ensures var h := Rewound(t, Some(b.hash), tip, height);
            h.Some? && h.value in t && t[h.value].height != height + 1
  {
    hide ValidTree, BlockAt;
    BlockAtHeight(t, tip, height);
  }

  // ---------- one confirmation

  /** With one confirmation no block is tracked and none is compared with its parent: two
      polls, of a chain and of a fork of it, make blocks final that are no chain. */
  lemma OneConfirmationForks(max: nat, answers: Txid -> Answer)
    ensures var g, a, b, d := Block(0, None, 0, []), Block(1, Some(0), 1, []), Block(2, Some(0), 1, []), Block(3, Some(2), 2, []);
            var t: Tree := map[0 := g, 1 := a, 2 := b, 3 := d];
            var s := NodeState(0, Some(0), State(map[], Window([], []), [], multiset{}, multiset{}));
            var turns := [Poll(1, 1, 1, 0, answers), Poll(2, 3, 3, 0, answers)];
            && Valid(t, Config(1, max), s) && AllKnown(t, turns) && AfterRun(t, Config(1, max), s, turns).Some?
            && AfterRun(t, Config(1, max), s, turns).value.conf.win == Window([1, 3], []) && !Chain(t, [1, 3])
  {
    var g, a, b, d := Block(0, None, 0, []), Block(1, Some(0), 1, []), Block(2, Some(0), 1, []), Block(3, Some(2), 2, []);
    var t: Tree := map[0 := g, 1 := a, 2 := b, 3 := d];
    var c := Config(1, max);
    var s := NodeState(0, Some(0), State(map[], Window([], []), [], multiset{}, multiset{}));
    var turns := [Poll(1, 1, 1, 0, answers), Poll(2, 3, 3, 0, answers)];
    NothingTracked(t, 1);
    assert s.conf.queue.Keys == {};
    assert ValidTree(t);
    hide ValidTree, ValidWindow, Balanced, Confirmed;
    var s1 := NodeState(1, Some(1), AfterBlock(1, s.conf, a));
    assert BlockAt(t, 1, 1) == Some(1);
    assert AfterTurn(t, c, s, turns[0]) == Some(s1);
    assert BlockAt(t, 3, 2) == Some(3);
    assert AfterTurn(t, c, s1, turns[1]) == Some(NodeState(2, Some(3), AfterBlock(1, s1.conf, d)));
    assert turns[..1] == [turns[0]] && turns[..1][..0] == [];
    assert AfterRun(t, c, s, turns[..1]) == Some(s1);
    var f: seq<Hash> := [1, 3];
    assert t[f[1]].prev == Some(2) && f[0] == 1;
  }
}
