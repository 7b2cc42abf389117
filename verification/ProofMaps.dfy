/** Ordered maps from an index to a value, as the list of their entries. */
module ProofMaps {

  ghost predicate Ascending<V>(m: seq<(nat, V)>) {
    forall i, j | 0 <= i < j < |m| :: m[i].0 < m[j].0
  }

  function Values<K, V>(m: seq<(K, V)>): (r: seq<V>)
    ensures |r| == |m|
    ensures forall i | 0 <= i < |r| :: r[i] == m[i].1
  {
    seq(|m|, i requires 0 <= i < |m| => m[i].1)
  }

  /** The map with `k` bound to `v`, in place of what it was bound to. */
  function Insert<V>(m: seq<(nat, V)>, k: nat, v: V): seq<(nat, V)> {
    if m == [] then [(k, v)]
    else
      var n := |m| - 1;
      if m[n].0 < k then m + [(k, v)]
      else if m[n].0 == k then m[..n] + [(k, v)]
      else Insert(m[..n], k, v) + [m[n]]
  }

  lemma {:induction false} InsertedEntries<V>(m: seq<(nat, V)>, k: nat, v: V, e: (nat, V))
    requires Ascending(m)
    ensures e in Insert(m, k, v) <==> e == (k, v) || (e in m && e.0 != k)
  {
    if m != [] {
      var n := |m| - 1;
      assert m == m[..n] + [m[n]];
      assert e in m[..n] ==> e.0 < m[n].0;
      InsertedEntries(m[..n], k, v, e);
    }
  }

  /** Inserting keeps the order, and changes the entry of its own key only. */
  lemma {:induction false} InsertAscending<V>(m: seq<(nat, V)>, k: nat, v: V)
    requires Ascending(m)
    ensures Ascending(Insert(m, k, v))
  {
    if m != [] {
      var n := |m| - 1;
      if k < m[n].0 {
        InsertAscending(m[..n], k, v);
        var r := Insert(m[..n], k, v);
        forall i | 0 <= i < |r| ensures r[i].0 < m[n].0 {
          InsertedEntries(m[..n], k, v, r[i]);
        }
      }
    }
  }

  /** The map that entries read one after the other make. */
  function Collected<V>(entries: seq<(nat, V)>): seq<(nat, V)> {
    if entries == [] then []
    else
      var (k, v) := entries[|entries| - 1];
      Insert(Collected(entries[..|entries| - 1]), k, v)
  }

  lemma {:induction false} CollectedAscending<V>(entries: seq<(nat, V)>)
    ensures Ascending(Collected(entries))
  {
    if entries != [] {
      CollectedAscending(entries[..|entries| - 1]);
      InsertAscending(Collected(entries[..|entries| - 1]), entries[|entries| - 1].0, entries[|entries| - 1].1);
    }
  }

  /** Entries in order make the map they are. */
  lemma {:induction false} CollectedInOrder<V>(entries: seq<(nat, V)>)
    requires Ascending(entries)
    ensures Collected(entries) == entries
  {
    if entries != [] {
      var n := |entries| - 1;
      var (k, v) := entries[n];
      CollectedInOrder(entries[..n]);
      assert n > 0 ==> entries[..n][n - 1].0 < k;
      assert Insert(entries[..n], k, v) == entries[..n] + [(k, v)];
      assert entries == entries[..n] + [(k, v)];
    }
  }
}
