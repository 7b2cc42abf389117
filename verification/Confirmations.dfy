/** The confirmator's window of recent blocks as a value: what a block does to it
    and where a reorganisation leaves it. */
module Confirmations {
  import opened Options
  import opened Blocks

  datatype BlockInfo = BlockInfo(hash: Hash, txs: seq<Txid>)

  datatype Message =
    | MinedTxs(txs: seq<Txid>)
    | ConfirmedTxs(txs: seq<Txid>)
    | Reorganization(txs: seq<Txid>, height: nat)

  // ---------- the transactions that wait

  /** The transactions of a block that are in the queue, in block order. */
  function Waiting(queue: set<Txid>, txs: seq<Txid>): seq<Txid> {
    if txs == [] then []
    else
      var last := txs[|txs| - 1];
      Waiting(queue, txs[..|txs| - 1]) + if last in queue then [last] else []
  }

  lemma {:induction false} WaitingIsExact(queue: set<Txid>, txs: seq<Txid>, id: Txid)
    ensures multiset(Waiting(queue, txs))[id] == if id in queue then multiset(txs)[id] else 0
  {
    if txs != [] {
      assert txs == txs[..|txs| - 1] + [txs[|txs| - 1]];
      WaitingIsExact(queue, txs[..|txs| - 1], id);
    }
  }

  lemma WaitingIn(queue: set<Txid>, txs: seq<Txid>, id: Txid)
    ensures id in Waiting(queue, txs) <==> id in queue && id in txs
  {
    WaitingIsExact(queue, txs, id);
    assert id in Waiting(queue, txs) <==> id in multiset(Waiting(queue, txs));
    assert id in txs <==> id in multiset(txs);
  }

  lemma WaitingDistinct(queue: set<Txid>, txs: seq<Txid>)
    requires Distinct(txs)
    ensures Distinct(Waiting(queue, txs))
    ensures forall id :: id in Waiting(queue, txs) <==> id in queue && id in txs
  {
    forall id ensures multiset(Waiting(queue, txs))[id] <= 1 {
      WaitingIsExact(queue, txs, id);
    }
    forall id ensures id in Waiting(queue, txs) <==> id in queue && id in txs {
      WaitingIn(queue, txs, id);
    }
  }

  /** Block order is kept. */
  lemma {:induction false} WaitingInOrder(queue: set<Txid>, txs: seq<Txid>, more: seq<Txid>)
    ensures Waiting(queue, txs + more) == Waiting(queue, txs) + Waiting(queue, more)
  {
    if more == [] {
      assert txs + more == txs;
    } else {
      var k := |more| - 1;
      assert (txs + more)[..|txs + more| - 1] == txs + more[..k];
      WaitingInOrder(queue, txs, more[..k]);
    }
  }

  /** The queue without the given transactions. */
  function Without(queue: map<Txid, nat>, txs: seq<Txid>): map<Txid, nat> {
    map id | id in queue && id !in txs :: queue[id]
  }

  lemma WithoutOne(queue: map<Txid, nat>, id: Txid)
    ensures Without(queue, [id]) == queue - {id}
  {
  }

  lemma WithoutNone(queue: map<Txid, nat>)
    ensures Without(queue, []) == queue
  {
  }

  /** The waiting transactions of the dropped blocks, the newest block first. */
  function Dropped(queue: set<Txid>, blocks: seq<BlockInfo>): seq<Txid> {
    if blocks == [] then [] else Dropped(queue, blocks[1..]) + Waiting(queue, blocks[0].txs)
  }

  lemma {:induction false} DroppedIsExact(queue: set<Txid>, blocks: seq<BlockInfo>, id: Txid)
    ensures id in Dropped(queue, blocks) <==> id in queue && exists i :: 0 <= i < |blocks| && id in blocks[i].txs
  {
    if blocks != [] {
      DroppedIsExact(queue, blocks[1..], id);
      WaitingIsExact(queue, blocks[0].txs, id);
      assert id in Waiting(queue, blocks[0].txs) <==> id in multiset(Waiting(queue, blocks[0].txs));
      assert id in blocks[0].txs <==> id in multiset(blocks[0].txs);
      if i :| 0 <= i < |blocks| && id in blocks[i].txs {
        assert i > 0 ==> id in blocks[1..][i - 1].txs;
      }
    }
  }

  /** The blocks are taken from the newest to the oldest. */
  lemma {:induction false} DroppedInOrder(queue: set<Txid>, older: seq<BlockInfo>, newer: seq<BlockInfo>)
    ensures Dropped(queue, older + newer) == Dropped(queue, newer) + Dropped(queue, older)
  {
    if older == [] {
      assert older + newer == newer;
    } else {
      assert (older + newer)[1..] == older[1..] + newer;
      DroppedInOrder(queue, older[1..], newer);
    }
  }

  /** How often each transaction was reported as confirmed. */
  ghost function Confirmed(sent: seq<Message>): multiset<Txid> {
    if sent == [] then multiset{}
    else
      var last := sent[|sent| - 1];
      Confirmed(sent[..|sent| - 1]) + if last.ConfirmedTxs? then multiset(last.txs) else multiset{}
  }

  lemma ConfirmedAppend(sent: seq<Message>, m: Message)
    ensures Confirmed(sent + [m]) == Confirmed(sent) + if m.ConfirmedTxs? then multiset(m.txs) else multiset{}
  {
    assert (sent + [m])[..|sent|] == sent;
  }

  /** Every time a transaction entered the queue it is still there, was
      confirmed, or was removed unconfirmed, and only one of these. */
  ghost predicate Balanced(inserted: multiset<Txid>, confirmed: multiset<Txid>, removed: multiset<Txid>, queue: set<Txid>) {
    forall id :: inserted[id] == confirmed[id] + removed[id] + multiset(queue)[id]
  }

  /** The transaction is waiting, or has been confirmed since `before`. */
  ghost predicate Kept(queue: set<Txid>, confirmed: multiset<Txid>, before: multiset<Txid>, id: Txid) {
    id in queue || confirmed[id] > before[id]
  }

  lemma ConfirmingBalances(inserted: multiset<Txid>, confirmed: multiset<Txid>, removed: multiset<Txid>,
                           queue: map<Txid, nat>, txs: seq<Txid>)
    requires Balanced(inserted, confirmed, removed, queue.Keys)
    requires Distinct(txs) && forall id | id in txs :: id in queue
    ensures Balanced(inserted, confirmed + multiset(txs), removed, Without(queue, txs).Keys)
  {
    var rest := Without(queue, txs).Keys;
    forall id ensures multiset(queue.Keys)[id] == multiset(txs)[id] + multiset(rest)[id] {
      assert multiset(txs)[id] <= 1 && (id in txs <==> id in multiset(txs));
    }
  }

  /** Confirming keeps the account balanced exactly if the transactions are queued,
      each listed once. */
  lemma ConfirmingExactly(inserted: multiset<Txid>, confirmed: multiset<Txid>, removed: multiset<Txid>,
                          queue: map<Txid, nat>, txs: seq<Txid>)
    requires Balanced(inserted, confirmed, removed, queue.Keys)
    ensures Balanced(inserted, confirmed + multiset(txs), removed, Without(queue, txs).Keys) <==>
            Distinct(txs) && forall id | id in txs :: id in queue
  {
    if Distinct(txs) && forall id | id in txs :: id in queue {
      ConfirmingBalances(inserted, confirmed, removed, queue, txs);
    }
    var rest := Without(queue, txs).Keys;
    if Balanced(inserted, confirmed + multiset(txs), removed, rest) {
      forall id ensures multiset(txs)[id] <= 1 && (id in txs ==> id in queue) {
        assert multiset(queue.Keys)[id] == multiset(txs)[id] + multiset(rest)[id];
        assert id in txs <==> id in multiset(txs);
      }
    }
  }

  lemma InsertingBalances(inserted: multiset<Txid>, confirmed: multiset<Txid>, removed: multiset<Txid>,
                          queue: set<Txid>, id: Txid)
    requires Balanced(inserted, confirmed, removed, queue) && id !in queue
    ensures Balanced(inserted + multiset{id}, confirmed, removed, queue + {id})
  {
  }

  // ---------- the window

  function Hashes(blocks: seq<BlockInfo>): (r: seq<Hash>)
    ensures |r| == |blocks|
    ensures forall i | 0 <= i < |r| :: r[i] == blocks[i].hash
  {
    seq(|blocks|, i requires 0 <= i < |blocks| => blocks[i].hash)
  }

  /** The blocks that left the window with enough confirmations, and the tracked ones. */
  datatype Window = Window(final: seq<Hash>, latest: seq<BlockInfo>) {
    ghost function History(): (r: seq<Hash>)
      ensures |r| == |final| + |latest|
    {
      final + Hashes(latest)
    }
  }

  /** The newest tracked block is not the parent the new block names. */
  predicate Diverges(latest: seq<BlockInfo>, b: Block) {
    b.prev.Some? && latest != [] && latest[|latest| - 1].hash != b.prev.value
  }

  /** The window with `b` tracked, its oldest block leaving once `n` are there. */
  function Track(n: nat, w: Window, b: Block): Window {
    var latest := w.latest + [BlockInfo(b.hash, b.txs)];
    if |latest| == n then Window(w.final + [latest[0].hash], latest[1..]) else w.(latest := latest)
  }

  /** The waiting transactions of the block that leaves the window with `b`. */
  function ConfirmedBy(n: nat, latest: seq<BlockInfo>, queue: set<Txid>, b: Block): seq<Txid> {
    var all := latest + [BlockInfo(b.hash, b.txs)];
    if |all| == n then Waiting(queue, all[0].txs) else []
  }

  function Mined(txs: seq<Txid>): seq<Message> {
    if txs == [] then [] else [MinedTxs(txs)]
  }

  function Confirming(txs: seq<Txid>): seq<Message> {
    if txs == [] then [] else [ConfirmedTxs(txs)]
  }

  /** Fewer than `n` tracked blocks, known to the node. */
  ghost predicate KnownWindow(t: Tree, n: nat, w: Window) {
    && |w.latest| < n
    && (forall i | 0 <= i < |w.latest| :: w.latest[i].hash in t && t[w.latest[i].hash].txs == w.latest[i].txs)
  }

  /** What every run keeps with `n` confirmations: the tracked blocks are known and
      a chain. From two confirmations on there is always a tracked
      block once one has been final, and the final blocks followed by the tracked
      ones are one chain. */
  ghost predicate ValidWindow(t: Tree, n: nat, w: Window) {
    && KnownWindow(t, n, w)
    && Chain(t, Hashes(w.latest))
    && (n >= 2 ==> Chain(t, w.History()) && (w.final != [] ==> w.latest != []))
  }

  lemma NothingTracked(t: Tree, n: nat)
    requires n >= 1
    ensures ValidWindow(t, n, Window([], [])) && Balanced(multiset{}, Confirmed([]), multiset{}, {})
  {
  }

  /** `b` is a child of the newest tracked block, if there is one. */
  predicate Follows(latest: seq<BlockInfo>, b: Block) {
    latest != [] ==> b.prev == Some(latest[|latest| - 1].hash)
  }

  /** `b` is one height above the newest tracked block. */
  ghost predicate InStep(t: Tree, latest: seq<BlockInfo>, b: Block) {
    latest != [] ==> latest[|latest| - 1].hash in t && t[latest[|latest| - 1].hash].height + 1 == b.height
  }

  lemma TrackKeepsWindow(t: Tree, n: nat, w: Window, b: Block)
    requires ValidTree(t) && n >= 1 && ValidWindow(t, n, w)
    requires b.hash in t && t[b.hash] == b && Follows(w.latest, b)
    ensures ValidWindow(t, n, Track(n, w, b))
    ensures n >= 2 ==> Track(n, w, b).History() == w.History() + [b.hash]
  {
    hide Hashes, Chain;
    var latest := w.latest + [BlockInfo(b.hash, b.txs)];
    assert Hashes(latest) == Hashes(w.latest) + [b.hash];
    ChainExtended(t, Hashes(w.latest), b.hash);
    var next := Track(n, w, b);
    if |latest| == n {
      assert Hashes(next.latest) == Hashes(latest)[1..];
      ChainTail(t, Hashes(latest));
    }
    if n >= 2 {
      assert next.History() == w.History() + [b.hash];
      ChainExtended(t, w.History(), b.hash);
    }
  }

  lemma ValidIsKnown(t: Tree, n: nat, w: Window)
    requires ValidWindow(t, n, w)
    ensures KnownWindow(t, n, w)
  {
  }

  lemma TrackKeepsKnown(t: Tree, n: nat, w: Window, b: Block)
    requires n >= 1 && KnownWindow(t, n, w) && b.hash in t && t[b.hash] == b
    ensures KnownWindow(t, n, Track(n, w, b))
  {
  }

  /** A block without a parent that joins tracked blocks breaks the chain. */
  lemma TrackBreaksWindow(t: Tree, n: nat, w: Window, b: Block)
    requires ValidWindow(t, n, w) && b.hash in t && t[b.hash] == b && b.prev.None? && w.latest != []
    ensures !ValidWindow(t, n, Track(n, w, b))
  {
    var h := Track(n, w, b).History();
    assert h == w.History() + [b.hash] by {
      hide Chain;
      assert Hashes(w.latest + [BlockInfo(b.hash, b.txs)]) == Hashes(w.latest) + [b.hash];
    }
    var k := |h| - 1;
    assert k > 0 && h[k] == b.hash;
    assert n >= 2;
    assert !Chain(t, h) by { assert t[h[k]].prev != Some(h[k - 1]); }
  }

  /** The block that reaches `n` confirmations with `b` is `n - 1` generations
      above `b`, all of them tracked, and what is confirmed are its transactions. */
  lemma FinalIsDeep(t: Tree, n: nat, w: Window, b: Block, queue: set<Txid>)
    requires ValidTree(t) && n >= 1 && ValidWindow(t, n, w)
    requires b.hash in t && t[b.hash] == b && Follows(w.latest, b)
    requires Track(n, w, b).final != w.final
    ensures |w.latest| == n - 1
    ensures var h := Track(n, w, b).final[|w.final|];
            Ancestor(t, b.hash, n - 1) == Some(h) && h in t && ConfirmedBy(n, w.latest, queue, b) == Waiting(queue, t[h].txs)
  {
    hide Waiting;
    var latest := w.latest + [BlockInfo(b.hash, b.txs)];
    assert Hashes(latest) == Hashes(w.latest) + [b.hash];
    ChainExtended(t, Hashes(w.latest), b.hash);
    ChainHeights(t, Hashes(latest), 0, n - 1);
  }

  /** The block at `h` is `n - 1` generations above `b`, and `confirmed` are its waiting
      transactions. */
  ghost predicate DeepEnough(t: Tree, n: nat, h: Hash, b: Block, waiting: set<Txid>, confirmed: seq<Txid>) {
    n >= 1 && Ancestor(t, b.hash, n - 1) == Some(h) && h in t && confirmed == Waiting(waiting, t[h].txs)
  }

  /** A block that does not diverge: the window stays known, and valid exactly if the block
      follows it; what is confirmed then are the transactions of a block deep enough. */
  lemma TrackedWindow(t: Tree, n: nat, w: Window, b: Block, queue: set<Txid>)
    requires ValidTree(t) && n >= 1 && KnownWindow(t, n, w) && b.hash in t && t[b.hash] == b && !Diverges(w.latest, b)
    ensures KnownWindow(t, n, Track(n, w, b))
    ensures ValidWindow(t, n, w) ==> (ValidWindow(t, n, Track(n, w, b)) <==> Follows(w.latest, b))
    ensures var next, confirmed := Track(n, w, b), ConfirmedBy(n, w.latest, queue, b);
            && (next.final == w.final ==> confirmed == [])
            && (ValidWindow(t, n, w) && next.final != w.final && Follows(w.latest, b) ==>
                  DeepEnough(t, n, next.final[|next.final| - 1], b, queue, confirmed))
  {
    hide ValidTree, ValidWindow, KnownWindow, Ancestor, Waiting;
    TrackKeepsKnown(t, n, w, b);
    if ValidWindow(t, n, w) {
      if Follows(w.latest, b) {
        TrackKeepsWindow(t, n, w, b);
        if Track(n, w, b).final != w.final {
          FinalIsDeep(t, n, w, b, queue);
        }
      } else {
        TrackBreaksWindow(t, n, w, b);
      }
    }
  }

  // ---------- starting again

  function TrackAll(n: nat, w: Window, blocks: seq<Block>): Window {
    if blocks == [] then w else Track(n, TrackAll(n, w, blocks[..|blocks| - 1]), blocks[|blocks| - 1])
  }

  function Infos(blocks: seq<Block>): (r: seq<BlockInfo>)
    ensures |r| == |blocks|
    ensures forall i | 0 <= i < |r| :: r[i] == BlockInfo(blocks[i].hash, blocks[i].txs)
  {
    seq(|blocks|, i requires 0 <= i < |blocks| => BlockInfo(blocks[i].hash, blocks[i].txs))
  }

  /** How many of the first `count` blocks are final with `n` confirmations. It is
      also the height at which a node that has indexed that many starts again. */
  function StartingHeight(count: nat, n: nat): nat
    requires n >= 1
  {
    if count < n - 1 then 0 else count - (n - 1)
  }

  lemma InfosSnoc(blocks: seq<Block>, cut: nat)
    requires cut < |blocks|
    ensures var n := |blocks| - 1;
            Infos(blocks[..n][cut..]) + [BlockInfo(blocks[n].hash, blocks[n].txs)] == Infos(blocks[cut..])
    ensures Infos(blocks[cut..])[0].hash == blocks[cut].hash && Infos(blocks[cut..])[1..] == Infos(blocks[cut + 1..])
  {
  }

  lemma NamesSnoc(blocks: seq<Block>, cut: nat)
    requires cut < |blocks|
    ensures Hashes(Infos(blocks[..|blocks| - 1][..cut])) == Hashes(Infos(blocks[..cut]))
    ensures Hashes(Infos(blocks[..cut])) + [blocks[cut].hash] == Hashes(Infos(blocks[..cut + 1]))
  {
    assert blocks[..|blocks| - 1][..cut] == blocks[..cut];
  }

  lemma {:induction false} TrackAllIsWindow(n: nat, blocks: seq<Block>)
    requires n >= 1
    ensures TrackAll(n, Window([], []), blocks) ==
            Window(Hashes(Infos(blocks[..StartingHeight(|blocks|, n)])), Infos(blocks[StartingHeight(|blocks|, n)..]))
  {
    hide Hashes, Infos;
    if blocks != [] {
      var init := blocks[..|blocks| - 1];
      TrackAllIsWindow(n, init);
      var cut := StartingHeight(|init|, n);
      InfosSnoc(blocks, cut);
      NamesSnoc(blocks, cut);
    }
  }

  /** A node that indexed blocks `from` to `count` of a chain and starts again at its
      starting height tracks the same blocks as one that never stopped, and between
      them the two runs make every block final once. If it had indexed fewer than
      `n - 1` blocks it starts before `from`, nothing was final yet, and it tracks and
      makes final what the other does and some earlier blocks. The chain is given from
      height zero and is the one the node indexed; `RestartAfterDivergence` is the case of
      a node that stopped before it handled a reorganisation. */
  lemma RestartLosesNothing(n: nat, chain: seq<Block>, from: nat, count: nat)
    requires n >= 1 && from <= count <= |chain|
    ensures var start := StartingHeight(count, n);
            var whole, first, second :=
              TrackAll(n, Window([], []), chain[from..]),
              TrackAll(n, Window([], []), chain[from..count]),
              TrackAll(n, Window([], []), chain[start..]);
            && (from <= start ==> second.latest == whole.latest && first.final + second.final == whole.final)
            && (start < from ==> && first.final == [] && IsSuffix(whole.latest, second.latest)
                                 && IsSuffix(whole.final, second.final))
  {
    hide TrackAll, Hashes, Infos;
    var start := StartingHeight(count, n);
    assert chain[from..|chain|] == chain[from..] && chain[start..|chain|] == chain[start..];
    TrackSlice(n, chain, from, |chain|);
    TrackSlice(n, chain, from, count);
    TrackSlice(n, chain, start, |chain|);
    var whole, second := Cut(n, from, |chain|), Cut(n, start, |chain|);
    if from <= start {
      assert whole == second && Cut(n, from, count) == start;
      NamesConcat(chain, from, start, whole);
    } else {
      assert Cut(n, from, count) == from && second <= whole && start + (whole - from) <= second;
      NamesSuffix(chain, start, second, from, whole);
      InfosSuffix(chain, second, whole);
    }
  }

  /** A node that stopped between indexing a block that diverged, the last of `count`
      blocks of a chain, and handling the reorganisation. It had followed `was`, which
      shares the final blocks and the oldest tracked one with the chain. Starting again, it
      never makes that oldest block final if its window was full, and otherwise loses nothing. */
  lemma RestartAfterDivergence(n: nat, was: seq<Block>, chain: seq<Block>, from: nat)
    requires n >= 2 && from < |was| < |chain|
    requires var oldest := Cut(n, from, |was|); oldest < |was| && was[..oldest + 1] == chain[..oldest + 1]
    ensures var start, oldest := StartingHeight(|was| + 1, n), Cut(n, from, |was|);
            var first, whole, second :=
              TrackAll(n, Window([], []), was[from..]),
              TrackAll(n, Window([], []), chain[from..]),
              TrackAll(n, Window([], []), chain[start..]);
            && (|first.latest| == n - 1 ==>
                  && whole.final == first.final + [chain[oldest].hash] + second.final
                  && second.latest == whole.latest)
            && (|first.latest| < n - 1 ==>
                  first.final == [] && IsSuffix(whole.final, second.final) && IsSuffix(whole.latest, second.latest))
  {
    hide TrackAll, Hashes, Infos, Names;
    var start, oldest := StartingHeight(|was| + 1, n), Cut(n, from, |was|);
    assert was[from..|was|] == was[from..] && chain[from..|chain|] == chain[from..] && chain[start..|chain|] == chain[start..];
    TrackSlice(n, was, from, |was|);
    TrackSlice(n, chain, from, |chain|);
    TrackSlice(n, chain, start, |chain|);
    var whole, second := Cut(n, from, |chain|), Cut(n, start, |chain|);
    assert Names(was, from, oldest) == Names(chain, from, oldest) by { SharedNames(was, chain, from, oldest); }
    if |was| - from >= n - 1 {
      assert oldest + 1 == start && whole == second;
      NamesConcat(chain, from, oldest, whole);
      NamesConcat(chain, oldest, start, whole);
      assert Names(chain, oldest, start) == [chain[oldest].hash];
    } else {
      assert start <= from && second <= whole && whole - from <= second - start;
      NamesSuffix(chain, start, second, from, whole);
      InfosSuffix(chain, second, whole);
    }
  }

  lemma SharedNames(a: seq<Block>, b: seq<Block>, from: nat, to: nat)
    requires from <= to <= |a| && to <= |b| && a[..to] == b[..to]
    ensures Names(a, from, to) == Names(b, from, to)
  {
    hide Names;
    forall i | from <= i < to ensures a[i] == b[i] {
      assert a[..to][i] == b[..to][i];
    }
  }

  ghost predicate IsSuffix<T>(a: seq<T>, b: seq<T>) {
    |a| <= |b| && b[|b| - |a|..] == a
  }

  /** Of the blocks `from` to `to`, those before the cut are final. */
  ghost function Cut(n: nat, from: nat, to: nat): (cut: nat)
    requires n >= 1 && from <= to
    ensures from <= cut <= to
  {
    from + StartingHeight(to - from, n)
  }

  ghost function Names(chain: seq<Block>, from: nat, to: nat): (r: seq<Hash>)
    requires from <= to <= |chain|
    ensures |r| == to - from && forall i | 0 <= i < |r| :: r[i] == chain[from + i].hash
  {
    Hashes(Infos(chain[from..to]))
  }

  lemma TrackSlice(n: nat, chain: seq<Block>, from: nat, to: nat)
    requires n >= 1 && from <= to <= |chain|
    ensures var cut := Cut(n, from, to);
            TrackAll(n, Window([], []), chain[from..to]) == Window(Names(chain, from, cut), Infos(chain[cut..to]))
  {
    hide TrackAll, Hashes, Infos;
    var blocks, k := chain[from..to], StartingHeight(to - from, n);
    TrackAllIsWindow(n, blocks);
    assert blocks[..k] == chain[from..from + k] && blocks[k..] == chain[from + k..to];
  }

  lemma NamesConcat(chain: seq<Block>, a: nat, b: nat, c: nat)
    requires a <= b <= c <= |chain|
    ensures Names(chain, a, b) + Names(chain, b, c) == Names(chain, a, c)
  {
  }

  lemma NamesSuffix(chain: seq<Block>, a: nat, b: nat, c: nat, d: nat)
    requires a <= b <= |chain| && c <= d <= |chain| && d - c <= b - a && (c < d ==> b == d)
    ensures IsSuffix(Names(chain, c, d), Names(chain, a, b))
  {
    hide Names;
    var x, y := Names(chain, c, d), Names(chain, a, b);
    assert y[|y| - |x|..] == x;
  }

  lemma InfosSuffix(chain: seq<Block>, a: nat, b: nat)
    requires a <= b <= |chain|
    ensures IsSuffix(Infos(chain[b..]), Infos(chain[a..]))
  {
    hide Infos;
    var x, y := Infos(chain[b..]), Infos(chain[a..]);
    assert y[|y| - |x|..] == x;
  }

  // ---------- the fork

  /** The tracked block `i` is where the walk up from `b` meets the window. */
  ghost predicate Meets(t: Tree, latest: seq<BlockInfo>, b: Block, i: nat)
    requires i < |latest|
  {
    Ancestor(t, b.hash, |latest| - i) == Some(latest[i].hash)
  }

  /** The fork: the walk meets the window there and at no newer block. */
  ghost predicate Fork(t: Tree, latest: seq<BlockInfo>, b: Block, i: nat) {
    && i < |latest|
    && Meets(t, latest, b, i)
    && (forall j | i < j < |latest| :: !Meets(t, latest, b, j))
  }

  /** In step, the walk meets a tracked block exactly when that is an ancestor of
      the new block, and the height it has counted down to is that block's. */
  lemma MeetsIsAncestry(t: Tree, latest: seq<BlockInfo>, b: Block, i: nat)
    requires ValidTree(t) && Chain(t, Hashes(latest)) && i < |latest|
    requires b.hash in t && t[b.hash] == b && InStep(t, latest, b)
    ensures Meets(t, latest, b, i) <==> IsAncestor(t, latest[i].hash, b.hash)
    ensures latest[i].hash in t && b.height - (|latest| - i) == t[latest[i].hash].height
  {
    hide Ancestor, ValidTree, IsAncestor;
    assert Hashes(latest)[i] == latest[i].hash;
    ChainHeights(t, Hashes(latest), i, |latest| - 1);
    AncestorAt(t, b.hash, latest[i].hash, |latest| - i);
  }

  /** The newest tracked block that is an ancestor of `b`. */
  ghost predicate ForkPoint(t: Tree, latest: seq<BlockInfo>, b: Block, i: nat) {
    && i < |latest|
    && IsAncestor(t, latest[i].hash, b.hash)
    && (forall j | i < j < |latest| :: !IsAncestor(t, latest[j].hash, b.hash))
  }

  ghost predicate TracksAncestor(t: Tree, latest: seq<BlockInfo>, b: Block) {
    exists i :: 0 <= i < |latest| && IsAncestor(t, latest[i].hash, b.hash)
  }

  /** In step, there is a fork exactly when an ancestor of the new block is
      tracked, and the fork is the newest of these. */
  lemma ForkInStep(t: Tree, latest: seq<BlockInfo>, b: Block)
    requires ValidTree(t) && Chain(t, Hashes(latest))
    requires b.hash in t && t[b.hash] == b && InStep(t, latest, b)
    ensures (exists i :: 0 <= i < |latest| && Meets(t, latest, b, i)) <==> TracksAncestor(t, latest, b)
    ensures forall i: nat :: Fork(t, latest, b, i) ==>
              ForkPoint(t, latest, b, i) && latest[i].hash in t && b.height - (|latest| - i) == t[latest[i].hash].height
  {
    hide ValidTree, Chain, InStep, Meets, IsAncestor, Hashes;
    forall i | 0 <= i < |latest|
      ensures Meets(t, latest, b, i) <==> IsAncestor(t, latest[i].hash, b.hash)
      ensures latest[i].hash in t && b.height - (|latest| - i) == t[latest[i].hash].height
    {
      MeetsIsAncestry(t, latest, b, i);
    }
  }

  /** Above the oldest generation there is none, so the walk meets nothing there. */
  lemma NothingAbove(t: Tree, latest: seq<BlockInfo>, b: Block, k: nat)
    requires ValidTree(t) && b.hash in t && Ancestor(t, b.hash, k).None?
    ensures forall j | 0 <= j < |latest| && k <= |latest| - j :: !Meets(t, latest, b, j)
  {
    hide Ancestor, ValidTree;
    AncestorHeight(t, b.hash, k);
    forall j | 0 <= j < |latest| && k <= |latest| - j ensures !Meets(t, latest, b, j) {
      AncestorHeight(t, b.hash, |latest| - j);
    }
  }

  lemma PrefixKnown(t: Tree, n: nat, w: Window, latest: seq<BlockInfo>)
    requires KnownWindow(t, n, w) && latest <= w.latest
    ensures KnownWindow(t, n, w.(latest := latest))
  {
  }

  /** The window a reorganisation leaves is still valid, and only loses tracked blocks. */
  lemma ForkKeepsWindow(t: Tree, n: nat, w: Window, b: Block, i: nat)
    requires ValidWindow(t, n, w) && Fork(t, w.latest, b, i)
    ensures ValidWindow(t, n, w.(latest := w.latest[..i + 1]))
  {
    var next := w.(latest := w.latest[..i + 1]);
    assert Hashes(next.latest) == Hashes(w.latest)[..i + 1];
    assert next.History() == w.History()[..|w.final| + i + 1];
  }
}
