/** The blocks a Bitcoin node knows, as a tree: every block but those at height
    zero has a parent one height below. */
module Blocks {
  import opened Options

  type Hash = nat
  type Txid = nat

  datatype Block = Block(hash: Hash, prev: Option<Hash>, height: nat, txs: seq<Txid>)

  type Tree = map<Hash, Block>

  ghost predicate Distinct(txs: seq<Txid>) {
    forall id :: multiset(txs)[id] <= 1
  }

  ghost predicate Rooted(t: Tree, b: Block) {
    match b.prev
    case None => b.height == 0
    case Some(p) => p in t && t[p].height + 1 == b.height
  }

  ghost predicate ValidTree(t: Tree) {
    forall h | h in t :: t[h].hash == h && Distinct(t[h].txs) && Rooted(t, t[h])
  }

  /** The block `k` generations above the block `h`, itself for zero. */
  function Ancestor(t: Tree, h: Hash, k: nat): Option<Hash> {
    if k == 0 then Some(h)
    else match Ancestor(t, h, k - 1)
      case None => None
      case Some(c) => if c in t then t[c].prev else None
  }

  ghost predicate IsAncestor(t: Tree, a: Hash, h: Hash) {
    exists k: nat :: 0 < k && Ancestor(t, h, k) == Some(a)
  }

  /** `k` generations up is exactly `k` heights down, and there is such a block
      just when the height allows it. */
  lemma {:induction false} AncestorHeight(t: Tree, h: Hash, k: nat)
    requires ValidTree(t) && h in t
    ensures Ancestor(t, h, k).Some? <==> k <= t[h].height
    ensures Ancestor(t, h, k).Some? ==> Ancestor(t, h, k).value in t && t[Ancestor(t, h, k).value].height + k == t[h].height
  {
    if k > 0 {
      AncestorHeight(t, h, k - 1);
      if Ancestor(t, h, k - 1).Some? {
        assert Rooted(t, t[Ancestor(t, h, k - 1).value]);
      }
    }
  }

  lemma FirstGeneration(t: Tree, b: Block)
    requires b.hash in t && t[b.hash] == b
    ensures Ancestor(t, b.hash, 1) == b.prev
  {
    assert Ancestor(t, b.hash, 0) == Some(b.hash);
  }

  lemma NextGeneration(t: Tree, b: Block, k: nat)
    requires Ancestor(t, b.hash, k).Some? && Ancestor(t, b.hash, k).value in t
    ensures Ancestor(t, b.hash, k + 1) == t[Ancestor(t, b.hash, k).value].prev
  {
  }

  /** The ancestors of an ancestor. */
  lemma {:induction false} AncestorSum(t: Tree, h: Hash, i: nat, j: nat)
    requires Ancestor(t, h, i).Some?
    ensures Ancestor(t, h, i + j) == Ancestor(t, Ancestor(t, h, i).value, j)
  {
    if j > 0 {
      AncestorSum(t, h, i, j - 1);
    }
  }

  /** A block is an ancestor exactly when it is the one at the distance its height says. */
  lemma AncestorAt(t: Tree, h: Hash, a: Hash, k: nat)
    requires ValidTree(t) && h in t && a in t && 0 < k && t[a].height + k == t[h].height
    ensures IsAncestor(t, a, h) <==> Ancestor(t, h, k) == Some(a)
  {
    hide Ancestor, ValidTree;
    if j: nat :| 0 < j && Ancestor(t, h, j) == Some(a) {
      AncestorHeight(t, h, j);
    }
  }

  /** Consecutive blocks of a chain are parent and child. */
  ghost predicate Chain(t: Tree, c: seq<Hash>) {
    && (forall i | 0 <= i < |c| :: c[i] in t)
    && (forall i | 0 < i < |c| :: t[c[i]].prev == Some(c[i - 1]))
  }

  lemma {:induction false} ChainHeights(t: Tree, c: seq<Hash>, i: nat, j: nat)
    requires ValidTree(t) && Chain(t, c) && i <= j < |c|
    ensures t[c[i]].height + (j - i) == t[c[j]].height
    ensures Ancestor(t, c[j], j - i) == Some(c[i])
    decreases j - i
  {
    if i < j {
      ChainHeights(t, c, i + 1, j);
      assert t[c[i + 1]].prev == Some(c[i]) && Rooted(t, t[c[i + 1]]);
    }
  }

  lemma ChainExtended(t: Tree, c: seq<Hash>, h: Hash)
    requires Chain(t, c) && h in t && (c != [] ==> t[h].prev == Some(c[|c| - 1]))
    ensures Chain(t, c + [h])
  {
  }

  lemma ChainTail(t: Tree, c: seq<Hash>)
    requires Chain(t, c) && c != []
    ensures Chain(t, c[1..])
  {
    forall i | 0 < i < |c| - 1 ensures t[c[1..][i]].prev == Some(c[1..][i - 1]) {
      assert c[1..][i] == c[i + 1] && c[1..][i - 1] == c[i];
    }
  }
}
