/** Selection of coins for several tokens at once, and of bitcoin for the fee. */
module CoinSelectors {
  import opened Options
  import opened Totals

  type Token = nat

  datatype Utxo = Utxo(id: nat, token: Token, amount: nat, sats: nat)

  datatype BitcoinUtxo = BitcoinUtxo(id: nat, sats: nat)

  // ---------- how much of a token there is

  function AmountOf(token: Token): Utxo -> nat {
    (u: Utxo) => if u.token == token then u.amount else 0
  }

  function Worth(us: seq<Utxo>, token: Token): nat {
    SumBy(AmountOf(token), us)
  }

  // ---------- the selection

  /** The requests of a dictionary: each token once. */
  ghost predicate DistinctTokens(amounts: seq<(Token, int)>) {
    forall i, j | 0 <= i < j < |amounts| :: amounts[i].0 != amounts[j].0
  }

  /** Queued, skipped and selected coins are the coins there were. */
  ghost predicate Dealt(all: seq<Utxo>, q: seq<Utxo>, skipped: seq<Utxo>, selected: seq<Utxo>) {
    multiset(all) == multiset(q) + multiset(skipped) + multiset(selected)
  }

  function Change(changes: map<Token, int>, token: Token): int {
    if token in changes then changes[token] else 0
  }

  /** Selected = requested + change for the first `n` tokens, and nothing else is
      selected or returned as change. */
  ghost predicate Served(amounts: seq<(Token, int)>, n: nat, selected: seq<Utxo>, changes: map<Token, int>)
    requires n <= |amounts|
  {
    && (forall i | 0 <= i < n :: Worth(selected, amounts[i].0) == amounts[i].1 + Change(changes, amounts[i].0))
    && (forall u | u in selected :: exists i :: 0 <= i < n && amounts[i].0 == u.token)
    && (forall token | token in changes :: changes[token] > 0 && exists i :: 0 <= i < n && amounts[i].0 == token)
  }

  /** Without the last coin they would not cover the request. */
  ghost predicate NoMore(coins: seq<Utxo>, request: (Token, int)) {
    coins != [] ==> Worth(coins[..|coins| - 1], request.0) < request.1
  }

  ghost predicate Sparing(amounts: seq<(Token, int)>, n: nat, selected: seq<Utxo>)
    requires n <= |amounts|
  {
    forall i | 0 <= i < n :: NoMore(OfToken(selected, amounts[i].0), amounts[i])
  }

  ghost predicate Covers(all: seq<Utxo>, request: (Token, int)) {
    Worth(all, request.0) >= request.1
  }

  /** The coins of a token, or the others, in their order. */
  function OfToken(us: seq<Utxo>, token: Token): seq<Utxo> {
    if us == [] then []
    else OfToken(us[..|us| - 1], token) + if us[|us| - 1].token == token then [us[|us| - 1]] else []
  }

  function NotOfToken(us: seq<Utxo>, token: Token): seq<Utxo> {
    if us == [] then []
    else NotOfToken(us[..|us| - 1], token) + if us[|us| - 1].token == token then [] else [us[|us| - 1]]
  }

  lemma {:induction false} OfTokenOnly(us: seq<Utxo>, token: Token)
    requires forall u | u in us :: u.token == token
    ensures OfToken(us, token) == us
  {
    if us != [] {
      OfTokenOnly(us[..|us| - 1], token);
    }
  }

  lemma {:induction false} OfTokenJoined(us: seq<Utxo>, vs: seq<Utxo>, token: Token)
    ensures OfToken(us + vs, token) == OfToken(us, token) + OfToken(vs, token)
  {
    if vs == [] {
      assert us + vs == us;
    } else {
      assert (us + vs)[..|us + vs| - 1] == us + vs[..|vs| - 1];
      OfTokenJoined(us, vs[..|vs| - 1], token);
    }
  }

  lemma {:induction false} NotOfTokenJoined(us: seq<Utxo>, vs: seq<Utxo>, token: Token)
    ensures NotOfToken(us + vs, token) == NotOfToken(us, token) + NotOfToken(vs, token)
  {
    if vs == [] {
      assert us + vs == us;
    } else {
      assert (us + vs)[..|us + vs| - 1] == us + vs[..|vs| - 1];
      NotOfTokenJoined(us, vs[..|vs| - 1], token);
    }
  }

  lemma {:induction false} NoneOfToken(us: seq<Utxo>, token: Token)
    requires forall u | u in us :: u.token != token
    ensures OfToken(us, token) == []
  {
    if us != [] {
      NoneOfToken(us[..|us| - 1], token);
    }
  }

  /** Part of the queue has been looked at, and its coins of the token taken, none
      of them after the amount was reached. */
  ghost predicate Picking(token: Token, amount: int, queue: seq<Utxo>, q: seq<Utxo>, skipped: seq<Utxo>, taken: seq<Utxo>) {
    && multiset(queue) == multiset(q) + multiset(skipped) + multiset(taken)
    && (forall u | u in taken :: u.token == token)
    && (forall u | u in skipped :: u.token != token)
    && Worth(taken, token) + Worth(q, token) == Worth(queue, token)
    && (taken != [] ==> Worth(taken[..|taken| - 1], token) < amount)
  }

  /** The queue was looked at from its front. */
  ghost predicate LookedAt(token: Token, queue: seq<Utxo>, q: seq<Utxo>, skipped: seq<Utxo>, taken: seq<Utxo>) {
    |q| <= |queue| &&
    var k := |queue| - |q|;
    q == queue[k..] && taken == OfToken(queue[..k], token) && skipped == NotOfToken(queue[..k], token)
  }

  /** No more of the queue was looked at than was needed. */
  ghost predicate Needed(token: Token, amount: int, queue: seq<Utxo>, k: nat)
    requires k <= |queue|
  {
    k > 0 ==> Worth(OfToken(queue[..k - 1], token), token) < amount
  }

  /** The queue as it is found for each token, how much of it is looked at, and the coins
      taken: what is skipped goes to the end of the queue. */
  ghost predicate Rotated(all: seq<Utxo>, amounts: seq<(Token, int)>, n: nat, queues: seq<seq<Utxo>>, looked: seq<nat>, selected: seq<Utxo>)
    requires n <= |amounts|
  {
    && |queues| == n + 1 && |looked| == n && queues[0] == all
    && (forall i | 0 <= i < n :: looked[i] <= |queues[i]|)
    && (forall i | 0 <= i < n ::
          && Needed(amounts[i].0, amounts[i].1, queues[i], looked[i])
          && Worth(OfToken(queues[i][..looked[i]], amounts[i].0), amounts[i].0) >= amounts[i].1
          && queues[i + 1] == queues[i][looked[i]..] + NotOfToken(queues[i][..looked[i]], amounts[i].0))
    && selected == AllTaken(amounts, n, queues, looked)
  }

  ghost function AllTaken(amounts: seq<(Token, int)>, n: nat, queues: seq<seq<Utxo>>, looked: seq<nat>): seq<Utxo>
    requires n <= |amounts| && n <= |queues| && n <= |looked| && forall i | 0 <= i < n :: looked[i] <= |queues[i]|
  {
    if n == 0 then []
    else AllTaken(amounts, n - 1, queues, looked) + OfToken(queues[n - 1][..looked[n - 1]], amounts[n - 1].0)
  }

  lemma {:induction false} AllTakenPrefix(amounts: seq<(Token, int)>, n: nat, queues: seq<seq<Utxo>>, looked: seq<nat>, q: seq<Utxo>, k: nat)
    requires n <= |amounts| && n <= |queues| && n <= |looked| && forall i | 0 <= i < n :: looked[i] <= |queues[i]|
    ensures forall i | 0 <= i < n :: (looked + [k])[i] <= |(queues + [q])[i]|
    ensures AllTaken(amounts, n, queues + [q], looked + [k]) == AllTaken(amounts, n, queues, looked)
  {
    if n > 0 {
      AllTakenPrefix(amounts, n - 1, queues, looked, q, k);
    }
  }

  lemma RotatedNext(all: seq<Utxo>, amounts: seq<(Token, int)>, n: nat, queues: seq<seq<Utxo>>, looked: seq<nat>, selected: seq<Utxo>, k: nat)
    requires n < |amounts| && Rotated(all, amounts, n, queues, looked, selected) && k <= |queues[n]|
    requires Needed(amounts[n].0, amounts[n].1, queues[n], k)
    requires Worth(OfToken(queues[n][..k], amounts[n].0), amounts[n].0) >= amounts[n].1
    ensures var token, q := amounts[n].0, queues[n];
            Rotated(all, amounts, n + 1, queues + [q[k..] + NotOfToken(q[..k], token)], looked + [k], selected + OfToken(q[..k], token))
  {
    hide OfToken, NotOfToken, Needed, SumBy;
    AllTakenPrefix(amounts, n, queues, looked, queues[n][k..] + NotOfToken(queues[n][..k], amounts[n].0), k);
  }

  lemma NothingRotated(all: seq<Utxo>, amounts: seq<(Token, int)>)
    ensures Rotated(all, amounts, 0, [all], [], [])
  {
  }

  lemma LookAtNone(token: Token, queue: seq<Utxo>)
    ensures LookedAt(token, queue, queue, [], [])
  {
  }

  lemma NothingNeeded(token: Token, amount: int, queue: seq<Utxo>)
    ensures Needed(token, amount, queue, 0)
  {
  }

  lemma StillNeeded(token: Token, amount: int, queue: seq<Utxo>, q: seq<Utxo>, skipped: seq<Utxo>, taken: seq<Utxo>)
    requires LookedAt(token, queue, q, skipped, taken) && q != [] && Worth(taken, token) < amount
    ensures Needed(token, amount, queue, |queue| - |q[1..]|)
  {
  }

  lemma LookAtOne(token: Token, queue: seq<Utxo>, q: seq<Utxo>, skipped: seq<Utxo>, taken: seq<Utxo>)
    requires LookedAt(token, queue, q, skipped, taken) && q != []
    ensures q[0].token != token ==> LookedAt(token, queue, q[1..], skipped + [q[0]], taken)
    ensures q[0].token == token ==> LookedAt(token, queue, q[1..], skipped, taken + [q[0]])
  {
    var k := |queue| - |q|;
    assert queue[..k + 1][..k] == queue[..k] && queue[..k + 1][k] == q[0];
  }

  lemma PickNone(token: Token, amount: int, queue: seq<Utxo>)
    ensures Picking(token, amount, queue, queue, [], []) && Worth([], token) == 0
  {
  }

  lemma PickOne(token: Token, amount: int, queue: seq<Utxo>, q: seq<Utxo>, skipped: seq<Utxo>, taken: seq<Utxo>)
    requires Picking(token, amount, queue, q, skipped, taken) && q != [] && Worth(taken, token) < amount
    ensures q[0].token != token ==> Picking(token, amount, queue, q[1..], skipped + [q[0]], taken)
    ensures q[0].token == token ==> Picking(token, amount, queue, q[1..], skipped, taken + [q[0]])
    ensures q[0].token == token ==> Worth(taken + [q[0]], token) == Worth(taken, token) + q[0].amount
  {
    hide SumBy;
    assert q == [q[0]] + q[1..];
    SumFirst(AmountOf(token), q);
    SumAppend(AmountOf(token), taken, q[0]);
    assert (taken + [q[0]])[..|taken|] == taken;
  }

  lemma PickedAll(token: Token, amount: int, queue: seq<Utxo>, q: seq<Utxo>, skipped: seq<Utxo>, taken: seq<Utxo>)
    requires Picking(token, amount, queue, q, skipped, taken)
    ensures Worth(taken, token) <= Worth(queue, token) && (q == [] ==> Worth(taken, token) == Worth(queue, token))
    ensures multiset(queue) == multiset(q) + multiset(skipped) + multiset(taken)
    ensures (forall u | u in taken :: u.token == token) && (forall u | u in skipped :: u.token != token)
    ensures taken != [] ==> Worth(taken[..|taken| - 1], token) < amount
  {
  }

  class CoinSelector {
    const lrc20Utxos: seq<Utxo>
    var btcUtxos: seq<BitcoinUtxo>

    constructor (lrc20Utxos: seq<Utxo>, btcUtxos: seq<BitcoinUtxo>)
      ensures this.lrc20Utxos == lrc20Utxos && this.btcUtxos == btcUtxos
    {
      this.lrc20Utxos, this.btcUtxos := lrc20Utxos, btcUtxos;
    }

    /** Takes coins of the token from the front of the queue until they reach the
        amount, skipping the others. Fails exactly when there are too few. */
    method SelectToken(token: Token, amount: int, queue: seq<Utxo>)
      returns (ok: bool, q: seq<Utxo>, skipped: seq<Utxo>, taken: seq<Utxo>, worth: nat)
      ensures ok <==> Worth(queue, token) >= amount
      ensures multiset(queue) == multiset(q) + multiset(skipped) + multiset(taken)
      ensures forall u | u in taken :: u.token == token
      ensures forall u | u in skipped :: u.token != token
      ensures |q| <= |queue| && q == queue[|queue| - |q|..]
      ensures taken == OfToken(queue[..|queue| - |q|], token) && skipped == NotOfToken(queue[..|queue| - |q|], token)
      ensures Needed(token, amount, queue, |queue| - |q|)
      ensures worth == Worth(taken, token) && (ok ==> worth >= amount)
      ensures taken != [] ==> Worth(taken[..|taken| - 1], token) < amount
    {
      hide SumBy, Picking, OfToken, NotOfToken, Needed;
      assert Needed(token, amount, queue, 0) by { NothingNeeded(token, amount, queue); }
      q, skipped, taken, worth := queue, [], [], 0;
      LookAtNone(token, queue);
      PickNone(token, amount, queue);
      while worth < amount
        invariant Picking(token, amount, queue, q, skipped, taken) && LookedAt(token, queue, q, skipped, taken)
        invariant worth == Worth(taken, token) && Needed(token, amount, queue, |queue| - |q|)
        decreases |q|
      {
        if q == [] {
          PickedAll(token, amount, queue, q, skipped, taken);
          return false, q, skipped, taken, worth;
        }
        var utxo := q[0];
        PickOne(token, amount, queue, q, skipped, taken);
        LookAtOne(token, queue, q, skipped, taken);
        StillNeeded(token, amount, queue, q, skipped, taken);
        q := q[1..];
        if utxo.token != token {
          skipped := skipped + [utxo];
          continue;
        }
        taken := taken + [utxo];
        worth := worth + utxo.amount;
      }
      PickedAll(token, amount, queue, q, skipped, taken);
      ok := true;
    }

    /** Succeeds exactly when there are coins and every token's total covers its
        request. Then no coin is used twice, and for each token what is selected is
        what was requested and the change. */
    method SelectLrc20Utxos(amounts: seq<(Token, int)>)
      returns (r: Option<(seq<Utxo>, map<Token, int>)>, ghost queues: seq<seq<Utxo>>, ghost looked: seq<nat>)
      requires DistinctTokens(amounts)
      ensures r.Some? <==> lrc20Utxos != [] && forall i | 0 <= i < |amounts| :: Covers(lrc20Utxos, amounts[i])
      ensures r.Some? ==> multiset(r.value.0) <= multiset(lrc20Utxos) && Served(amounts, |amounts|, r.value.0, r.value.1)
      ensures r.Some? ==> forall i | 0 <= i < |amounts| :: NoMore(OfToken(r.value.0, amounts[i].0), amounts[i])
      ensures r.Some? ==> Rotated(lrc20Utxos, amounts, |amounts|, queues, looked, r.value.0)
    {
      hide SumBy, Served, OfToken, NotOfToken, NoMore, Needed, Serving, Rotated;
      queues, looked := [lrc20Utxos], [];
      if lrc20Utxos == [] {
        r := None;
        return;
      }
      var q: seq<Utxo>, selected: seq<Utxo>, changes: map<Token, int> := lrc20Utxos, [], map[];
      ServingStarts(lrc20Utxos, amounts);
      for i := 0 to |amounts|
        invariant Serving(lrc20Utxos, amounts, i, q, selected, changes, queues, looked)
        invariant forall j | 0 <= j < i :: Covers(lrc20Utxos, amounts[j])
      {
        var (token, amount) := amounts[i];
        NextQueue(lrc20Utxos, amounts, i, q, selected, changes, queues, looked);
        var ok, rest, skipped, taken, worth := SelectToken(token, amount, q);
        if !ok {
          r := None;
          return;
        }
        var change := worth - amount;
        NoMoreTaken(taken, amounts[i]);
        ServingNext(lrc20Utxos, amounts, i, q, selected, changes, queues, looked, rest, skipped, taken);
        selected := selected + taken;
        if change > 0 {
          assert changes[token := 0][token := change] == changes[token := change];
          if token !in changes {
            changes := changes[token := 0];
          }
          changes := changes[token := changes[token] + change];
        }
        queues, looked := queues + [rest + skipped], looked + [|q| - |rest|];
        q := rest + skipped;
      }
      ServingEnds(lrc20Utxos, amounts, q, selected, changes, queues, looked);
      r := Some((selected, changes));
    }

    static method InputSats(inputs: seq<Utxo>) returns (amount: nat)
      ensures amount == SumBy(SatsIn(), inputs)
    {
      amount := 0;
      for i := 0 to |inputs|
        invariant amount == SumBy(SatsIn(), inputs[..i])
      {
        SumPrefix(SatsIn(), inputs, i);
        amount := amount + inputs[i].sats;
      }
      assert inputs[..|inputs|] == inputs;
    }

    /** Pops bitcoin from the end until it covers the fee and the dust; what was
        popped stays popped when there is not enough. */
    method SelectBtcUtxos(inputs: seq<Utxo>, fee: int, dust: int) returns (r: Option<seq<BitcoinUtxo>>)
      modifies this`btcUtxos
      ensures r.Some? <==> old(btcUtxos) != [] && SumBy(SatsIn(), inputs) + SumBy(Sats(), old(btcUtxos)) >= fee + dust
      ensures r.Some? ==>
                && Popped(old(btcUtxos), btcUtxos, r.value)
                && SumBy(SatsIn(), inputs) + SumBy(Sats(), r.value) >= fee + dust
                && (r.value != [] ==> SumBy(SatsIn(), inputs) + SumBy(Sats(), r.value[..|r.value| - 1]) < fee + dust)
      ensures r.None? ==> btcUtxos == []
    {
      hide SumBy, Popped, Sats, SatsIn;
      if btcUtxos == [] {
        return None;
      }
      var amount := InputSats(inputs);
      var selected: seq<BitcoinUtxo> := [];
      NonePopped(btcUtxos);
      while amount < fee + dust
        invariant amount == SumBy(SatsIn(), inputs) + SumBy(Sats(), selected)
        invariant Popped(old(btcUtxos), btcUtxos, selected)
        invariant SumBy(Sats(), old(btcUtxos)) == SumBy(Sats(), btcUtxos) + SumBy(Sats(), selected)
        invariant selected != [] ==> SumBy(SatsIn(), inputs) + SumBy(Sats(), selected[..|selected| - 1]) < fee + dust
        decreases |btcUtxos|
      {
        if btcUtxos == [] {
          return None;
        }
        var n := |btcUtxos| - 1;
        var utxo := btcUtxos[n];
        PopOne(old(btcUtxos), btcUtxos, selected);
        btcUtxos := btcUtxos[..n];
        amount := amount + utxo.sats;
        selected := selected + [utxo];
      }
      return Some(selected);
    }
  }

  function SatsIn(): Utxo -> nat {
    (u: Utxo) => u.sats
  }

  function Sats(): BitcoinUtxo -> nat {
    (u: BitcoinUtxo) => u.sats
  }

  /** The selected coins were taken one by one from the end. */
  ghost predicate Popped(all: seq<BitcoinUtxo>, rest: seq<BitcoinUtxo>, selected: seq<BitcoinUtxo>) {
    && rest <= all && |rest| + |selected| == |all|
    && forall i | 0 <= i < |selected| :: selected[i] == all[|all| - 1 - i]
  }

  lemma NonePopped(all: seq<BitcoinUtxo>)
    ensures Popped(all, all, []) && SumBy(Sats(), []) == 0
  {
  }

  lemma PopOne(all: seq<BitcoinUtxo>, rest: seq<BitcoinUtxo>, selected: seq<BitcoinUtxo>)
    requires Popped(all, rest, selected) && rest != []
    ensures var n := |rest| - 1;
            var next := selected + [rest[n]];
            && Popped(all, rest[..n], next) && next[..|next| - 1] == selected
            && SumBy(Sats(), rest) == SumBy(Sats(), rest[..n]) + rest[n].sats
            && SumBy(Sats(), next) == SumBy(Sats(), selected) + rest[n].sats
  {
    hide SumBy;
    var n := |rest| - 1;
    assert rest == rest[..n] + [rest[n]];
    SumAppend(Sats(), selected, rest[n]);
    SumAppend(Sats(), rest[..n], rest[n]);
  }

  /** What holds between two tokens. */
  ghost predicate Serving(all: seq<Utxo>, amounts: seq<(Token, int)>, n: nat, q: seq<Utxo>, selected: seq<Utxo>, changes: map<Token, int>,
                          queues: seq<seq<Utxo>>, looked: seq<nat>)
    requires n <= |amounts|
  {
    && Dealt(all, q, [], selected) && Served(amounts, n, selected, changes) && Sparing(amounts, n, selected)
    && Rotated(all, amounts, n, queues, looked, selected) && |queues| == n + 1 && q == queues[n]
  }

  lemma ServingStarts(all: seq<Utxo>, amounts: seq<(Token, int)>)
    ensures Serving(all, amounts, 0, all, [], map[], [all], [])
  {
    NothingServed(amounts);
    NothingRotated(all, amounts);
  }

  lemma NextQueue(all: seq<Utxo>, amounts: seq<(Token, int)>, n: nat, q: seq<Utxo>, selected: seq<Utxo>, changes: map<Token, int>,
                  queues: seq<seq<Utxo>>, looked: seq<nat>)
    requires DistinctTokens(amounts) && n < |amounts| && Serving(all, amounts, n, q, selected, changes, queues, looked)
    ensures Worth(q, amounts[n].0) == Worth(all, amounts[n].0) && amounts[n].0 !in changes
  {
    hide SumBy, Served, Rotated, Sparing;
    NotYetSelected(all, q, amounts, n, selected, changes);
  }

  lemma ServingNext(all: seq<Utxo>, amounts: seq<(Token, int)>, n: nat, q: seq<Utxo>, selected: seq<Utxo>, changes: map<Token, int>,
                    queues: seq<seq<Utxo>>, looked: seq<nat>, rest: seq<Utxo>, skipped: seq<Utxo>, taken: seq<Utxo>)
    requires DistinctTokens(amounts) && n < |amounts| && Serving(all, amounts, n, q, selected, changes, queues, looked)
    requires multiset(q) == multiset(rest) + multiset(skipped) + multiset(taken)
    requires LookedAt(amounts[n].0, q, rest, skipped, taken) && Needed(amounts[n].0, amounts[n].1, q, |q| - |rest|)
    requires forall u | u in taken :: u.token == amounts[n].0
    requires Worth(taken, amounts[n].0) >= amounts[n].1 && NoMore(taken, amounts[n])
    ensures var token, change := amounts[n].0, Worth(taken, amounts[n].0) - amounts[n].1;
            Serving(all, amounts, n + 1, rest + skipped, selected + taken, if change > 0 then changes[token := change] else changes,
                    queues + [rest + skipped], looked + [|q| - |rest|])
  {
    hide SumBy, Served, Rotated, Sparing, NoMore, Needed, OfToken, NotOfToken;
    NotYetSelected(all, q, amounts, n, selected, changes);
    ServedNext(amounts, n, selected, changes, taken);
    SparingNext(amounts, n, selected, taken);
    assert |queues| == n + 1 && |looked| == n by { RotatedLengths(all, amounts, n, queues, looked, selected); }
    RotatedNext(all, amounts, n, queues, looked, selected, |q| - |rest|);
    assert multiset(selected + taken) == multiset(selected) + multiset(taken);
  }

  lemma RotatedLengths(all: seq<Utxo>, amounts: seq<(Token, int)>, n: nat, queues: seq<seq<Utxo>>, looked: seq<nat>, selected: seq<Utxo>)
    requires n <= |amounts| && Rotated(all, amounts, n, queues, looked, selected)
    ensures |queues| == n + 1 && |looked| == n
  {
  }

  lemma ServingEnds(all: seq<Utxo>, amounts: seq<(Token, int)>, q: seq<Utxo>, selected: seq<Utxo>, changes: map<Token, int>,
                    queues: seq<seq<Utxo>>, looked: seq<nat>)
    requires Serving(all, amounts, |amounts|, q, selected, changes, queues, looked)
    ensures multiset(selected) <= multiset(all) && Served(amounts, |amounts|, selected, changes)
    ensures forall i | 0 <= i < |amounts| :: NoMore(OfToken(selected, amounts[i].0), amounts[i])
    ensures Rotated(all, amounts, |amounts|, queues, looked, selected)
  {
    hide Served, Rotated, NoMore, OfToken;
  }

  lemma NoMoreTaken(taken: seq<Utxo>, request: (Token, int))
    requires taken != [] ==> Worth(taken[..|taken| - 1], request.0) < request.1
    ensures NoMore(taken, request)
  {
  }

  lemma NothingServed(amounts: seq<(Token, int)>)
    ensures Served(amounts, 0, [], map[])
  {
  }

  /** The next token has neither coins selected nor change, so the queue still holds
      all there is of it. */
  lemma NotYetSelected(all: seq<Utxo>, q: seq<Utxo>, amounts: seq<(Token, int)>, n: nat, selected: seq<Utxo>, changes: map<Token, int>)
    requires DistinctTokens(amounts) && n < |amounts|
    requires Dealt(all, q, [], selected) && Served(amounts, n, selected, changes)
    ensures Worth(q, amounts[n].0) == Worth(all, amounts[n].0) && amounts[n].0 !in changes
    ensures forall u | u in selected :: u.token != amounts[n].0
  {
    hide SumBy;
    var token := amounts[n].0;
    assert multiset(all) == multiset(q + selected);
    SumAnyOrder(AmountOf(token), all, q + selected);
    SumConcat(AmountOf(token), q, selected);
    SumNothing(AmountOf(token), selected);
  }

  lemma SparingNext(amounts: seq<(Token, int)>, n: nat, selected: seq<Utxo>, taken: seq<Utxo>)
    requires DistinctTokens(amounts) && n < |amounts| && Sparing(amounts, n, selected) && NoMore(taken, amounts[n])
    requires forall u | u in taken :: u.token == amounts[n].0
    requires forall u | u in selected :: u.token != amounts[n].0
    ensures Sparing(amounts, n + 1, selected + taken)
  {
    hide OfToken, NoMore;
    forall i | 0 <= i <= n
      ensures OfToken(selected + taken, amounts[i].0) == if i < n then OfToken(selected, amounts[i].0) else taken {
      OfTokenJoined(selected, taken, amounts[i].0);
      if i < n {
        NoneOfToken(taken, amounts[i].0);
      } else {
        NoneOfToken(selected, amounts[n].0);
        OfTokenOnly(taken, amounts[n].0);
      }
    }
  }

  /** Coins of the next token beside those of the earlier ones. */
  lemma ServedNext(amounts: seq<(Token, int)>, n: nat, selected: seq<Utxo>, changes: map<Token, int>, taken: seq<Utxo>)
    requires DistinctTokens(amounts) && n < |amounts| && Served(amounts, n, selected, changes)
    requires (forall u | u in taken :: u.token == amounts[n].0) && Worth(taken, amounts[n].0) >= amounts[n].1
    ensures var token, change := amounts[n].0, Worth(taken, amounts[n].0) - amounts[n].1;
            Served(amounts, n + 1, selected + taken, if change > 0 then changes[token := change] else changes)
  {
    hide SumBy;
    var token := amounts[n].0;
    forall i | 0 <= i <= n ensures Worth(selected + taken, amounts[i].0) == if i < n then Worth(selected, amounts[i].0) else Worth(taken, token) {
      SumConcat(AmountOf(amounts[i].0), selected, taken);
      if i < n {
        SumNothing(AmountOf(amounts[i].0), taken);
      } else {
        SumNothing(AmountOf(token), selected);
      }
    }
  }
}
