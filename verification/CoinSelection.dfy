/** Largest-first coin selection. */
module CoinSelection {
  import opened Modulo
  import opened Totals
  import opened ProofMaps
  import opened TokenSums

  datatype Utxo = Utxo(id: nat, token: Token, isOpReturn: bool, amount: nat)

  function AmountIn(): Utxo -> nat {
    (u: Utxo) => u.amount
  }

  function Sum(us: seq<Utxo>): nat {
    SumBy(AmountIn(), us)
  }

  predicate IsEligible(u: Utxo, token: Token) {
    u.token == token && !u.isOpReturn
  }

  function Eligible(us: seq<Utxo>, token: Token): seq<Utxo> {
    if us == [] then []
    else (if IsEligible(us[0], token) then [us[0]] else []) + Eligible(us[1..], token)
  }

  /** Each eligible coin stays as often as it was there, the others go. */
  lemma {:induction false} EligibleIsExact(us: seq<Utxo>, token: Token, u: Utxo)
    ensures multiset(Eligible(us, token))[u] == if u.token == token && !u.isOpReturn then multiset(us)[u] else 0
  {
    if us != [] {
      assert us == [us[0]] + us[1..];
      EligibleIsExact(us[1..], token, u);
    }
  }

  ghost predicate Ascending(us: seq<Utxo>) {
    forall i, j | 0 <= i < j < |us| :: us[i].amount <= us[j].amount
  }

  ghost predicate Descending(us: seq<Utxo>) {
    forall i, j | 0 <= i < j < |us| :: us[i].amount >= us[j].amount
  }

  lemma NoneAscending()
    ensures Ascending([])
  {
  }

  // ---------- no fewer coins do

  /** Of coins in descending order, no selection of at most `k` is worth more than
      the first `k`. */
  lemma {:induction false} LargestAreMost(us: seq<Utxo>, some: seq<Utxo>, k: nat)
    requires Descending(us) && multiset(some) <= multiset(us) && |some| <= k <= |us|
    ensures Sum(some) <= Sum(us[..k])
    decreases |us|
  {
    hide SumBy, But;
    if k == 0 {
      assert some == [] && us[..k] == [];
    } else {
      assert us[..k][1..] == us[1..][..k - 1];
      SumFirst(AmountIn(), us[..k]);
      if us[0] in some {
        var i :| 0 <= i < |some| && some[i] == us[0];
        WithoutFirst(us, some, i);
        LargestAreMost(us[1..], But(some, i), k - 1);
        SumBut(AmountIn(), some, i);
      } else {
        NotFirst(us, some);
        if k < |us| {
          LargestAreMost(us[1..], some, k);
          assert us[1..][..k] == us[1..][..k - 1] + [us[k]];
          SumAppend(AmountIn(), us[1..][..k - 1], us[k]);
        } else {
          LargestAreMost(us[1..], some, k - 1);
        }
      }
    }
  }

  lemma WithoutFirst(us: seq<Utxo>, some: seq<Utxo>, i: nat)
    requires us != [] && i < |some| && some[i] == us[0] && multiset(some) <= multiset(us)
    ensures multiset(But(some, i)) <= multiset(us[1..])
  {
    SumBut(AmountIn(), some, i);
    assert us == [us[0]] + us[1..];
    Cancel(us[0], multiset(But(some, i)), multiset(us[1..]));
  }

  lemma Cancel(u: Utxo, a: multiset<Utxo>, b: multiset<Utxo>)
    requires multiset{u} + a <= multiset{u} + b
    ensures a <= b
  {
    forall x ensures a[x] <= b[x] {
      assert (multiset{u} + a)[x] <= (multiset{u} + b)[x];
    }
  }

  lemma NotFirst(us: seq<Utxo>, some: seq<Utxo>)
    requires us != [] && us[0] !in some && multiset(some) <= multiset(us)
    ensures multiset(some) <= multiset(us[1..]) && |some| <= |us| - 1
  {
    assert us == [us[0]] + us[1..];
    assert us[0] !in multiset(some);
    FewerCoins(some, us[1..]);
  }

  lemma FewerCoins(a: seq<Utxo>, b: seq<Utxo>)
    requires multiset(a) <= multiset(b)
    ensures |a| <= |b|
  {
    assert |multiset(a)| == |a| && |multiset(b)| == |b|;
    assert multiset(b) == multiset(a) + (multiset(b) - multiset(a));
  }

  // ---------- the selection

  datatype Selection = Selection(selected: seq<Utxo>, amount: nat)

  method Place(us: seq<Utxo>, u: Utxo) returns (r: seq<Utxo>)
    requires Ascending(us)
    ensures Ascending(r) && multiset(r) == multiset(us) + multiset{u}
  {
    var k := 0;
    while k < |us| && us[k].amount < u.amount
      invariant 0 <= k <= |us|
      invariant forall j | 0 <= j < k :: us[j].amount < u.amount
    {
      k := k + 1;
    }
    assert us == us[..k] + us[k..];
    r := us[..k] + [u] + us[k..];
  }

  /** Some order of the coins by amount. */
  method SortByAmount(us: seq<Utxo>) returns (r: seq<Utxo>)
    ensures Ascending(r) && multiset(r) == multiset(us)
  {
    hide Ascending;
    r := [];
    assert Ascending(r) by { NoneAscending(); }
    for i := 0 to |us|
      invariant Ascending(r) && multiset(r) == multiset(us[..i])
    {
      assert us[..i + 1] == us[..i] + [us[i]];
      r := Place(r, us[i]);
    }
    assert us[..|us|] == us;
  }

  function Reversed(us: seq<Utxo>): (r: seq<Utxo>)
    ensures |r| == |us| && multiset(r) == multiset(us)
    ensures forall i | 0 <= i < |r| :: r[i] == us[|us| - 1 - i]
  {
    if us == [] then []
    else
      assert us == us[..|us| - 1] + [us[|us| - 1]];
      [us[|us| - 1]] + Reversed(us[..|us| - 1])
  }

  function Marked(must: bool, us: seq<Utxo>): (r: seq<(bool, Utxo)>)
    ensures |r| == |us|
    ensures forall i | 0 <= i < |r| :: r[i] == (must, us[i])
  {
    seq(|us|, i requires 0 <= i < |us| => (must, us[i]))
  }

  /** What adding up the amounts without a check comes to. */
  function Counted(us: seq<Utxo>): nat {
    Sum(us) % AmountLimit()
  }

  lemma CountedIs(us: seq<Utxo>)
    ensures Counted(us) <= Sum(us) && (Counted(us) == Sum(us) <==> Sum(us) < AmountLimit())
  {
    hide AmountLimit, SumBy;
    WrapsUnlessBelow(Sum(us), AmountLimit());
  }

  lemma CountedNext(us: seq<Utxo>, i: nat)
    requires i < |us|
    ensures Counted(us[..i + 1]) == (Counted(us[..i]) + us[i].amount) % AmountLimit()
  {
    hide AmountLimit, SumBy;
    SumPrefix(AmountIn(), us, i);
    WrapsOnce(Sum(us[..i]), us[i].amount, AmountLimit());
  }

  /** Takes coins until the first that is neither required nor needed. The amount is
      added without a check, so it is the sum modulo the limit, and so are the amounts
      that decide whether a coin is needed. */
  method SelectSortedUtxos(us: seq<(bool, Utxo)>, target: nat) returns (r: Selection)
    ensures |r.selected| <= |us| && r.selected == Values(us)[..|r.selected|]
    ensures r.amount == Counted(r.selected)
    ensures forall i | 0 <= i < |r.selected| :: us[i].0 || Counted(Values(us)[..i]) < target
    ensures |r.selected| < |us| ==> !us[|r.selected|].0 && r.amount >= target
  {
    hide AmountLimit, Counted;
    ghost var all := Values(us);
    var amount: nat, selected: seq<Utxo>, i := 0, [], 0;
    assert Counted(all[..0]) == 0 by { Empty(); }
    while i < |us|
      invariant i <= |us| && selected == all[..i] && amount == Counted(all[..i])
      invariant forall j | 0 <= j < i :: us[j].0 || Counted(all[..j]) < target
    {
      var (must, u) := us[i];
      if !must && amount >= target {
        break;
      }
      CountedNext(all, i);
      amount := (amount + u.amount) % AmountLimit();
      selected := selected + [u];
      i := i + 1;
    }
    r := Selection(selected, amount);
  }

  lemma Empty()
    ensures Sum([]) == 0 && Counted([]) == 0
  {
    hide AmountLimit;
    WrapsUnlessBelow(0, AmountLimit());
  }

  /** Stopping at the first coins that reach the target, largest first, no fewer of
      the coins reach it. */
  lemma NoFewerCoins(required: seq<Utxo>, largest: seq<Utxo>, k: nat, target: nat, other: seq<Utxo>)
    requires Descending(largest) && 0 < k <= |largest| && Sum(required + largest[..k - 1]) < target
    requires multiset(other) <= multiset(largest) && |other| < k
    ensures Sum(required) + Sum(other) < target
  {
    hide SumBy;
    SumConcat(AmountIn(), required, largest[..k - 1]);
    LargestAreMost(largest, other, k - 1);
  }

  /** What the selection of `chosen` beside the required coins promises. */
  ghost predicate Optimal(required: seq<Utxo>, eligible: seq<Utxo>, target: nat, chosen: seq<Utxo>) {
    && (Sum(required + chosen) >= target <==> Sum(required) + Sum(eligible) >= target)
    && (forall other: seq<Utxo> | multiset(other) <= multiset(eligible) && |other| < |chosen| ::
          Sum(required) + Sum(other) < target)
  }

  /** All the required coins and the `k` largest others are taken. */
  lemma PrefixIsOptimal(required: seq<Utxo>, largest: seq<Utxo>, target: nat, k: nat)
    requires Descending(largest) && k <= |largest|
    requires k > 0 ==> Sum(required + largest[..k - 1]) < target
    requires k < |largest| ==> Sum(required + largest[..k]) >= target
    ensures Optimal(required, largest, target, largest[..k])
  {
    hide SumBy, Descending;
    SumConcat(AmountIn(), required, largest[..k]);
    SumPrefix(AmountIn(), largest, k);
    assert k == |largest| ==> largest[..k] == largest;
    if k > 0 {
      forall other: seq<Utxo> | multiset(other) <= multiset(largest) && |other| < k ensures Sum(required) + Sum(other) < target {
        NoFewerCoins(required, largest, k, target, other);
      }
    }
  }

  lemma OptimalAnyOrder(required: seq<Utxo>, a: seq<Utxo>, b: seq<Utxo>, target: nat, chosen: seq<Utxo>)
    requires multiset(a) == multiset(b) && Optimal(required, a, target, chosen)
    ensures Optimal(required, b, target, chosen)
  {
    hide SumBy;
    SumAnyOrder(AmountIn(), a, b);
  }

  /** The chosen coins and then those that are left are all the coins, largest first. */
  ghost predicate LargestFirst(eligible: seq<Utxo>, chosen: seq<Utxo>) {
    exists left :: Descending(chosen + left) && multiset(chosen + left) == multiset(eligible)
  }

  lemma PrefixIsLargest(largest: seq<Utxo>, eligible: seq<Utxo>, chosen: seq<Utxo>)
    requires Descending(largest) && chosen <= largest && multiset(largest) == multiset(eligible)
    ensures LargestFirst(eligible, chosen)
  {
    hide Descending;
    assert largest == chosen + largest[|chosen|..];
  }

  /** The sum of all selected coins but the last is below the limit. Up to there the
      amounts that decided were true sums. */
  ghost predicate Unwrapped(required: seq<Utxo>, chosen: seq<Utxo>) {
    chosen == [] || Sum(required + chosen[..|chosen| - 1]) < AmountLimit()
  }

  lemma WrappedIsNotOptimal(required: seq<Utxo>, eligible: seq<Utxo>, target: nat, chosen: seq<Utxo>)
    requires target < AmountLimit() && multiset(chosen) <= multiset(eligible) && Optimal(required, eligible, target, chosen)
    ensures Unwrapped(required, chosen)
  {
    hide SumBy, AmountLimit;
    if chosen != [] {
      var other := chosen[..|chosen| - 1];
      assert chosen == other + [chosen[|chosen| - 1]];
      assert multiset(other) <= multiset(chosen);
      SumConcat(AmountIn(), required, other);
    }
  }

  method SelectLargest(required: seq<Utxo>, largest: seq<Utxo>, target: nat) returns (r: Selection)
    requires Descending(largest)
    ensures required <= r.selected && r.selected[|required|..] <= largest
    ensures multiset(r.selected[|required|..]) <= multiset(largest)
    ensures r.amount == Counted(r.selected)
    ensures target < AmountLimit() ==>
              (Optimal(required, largest, target, r.selected[|required|..]) <==> Unwrapped(required, r.selected[|required|..]))
  {
    hide AmountLimit, SumBy, Counted, Descending, Optimal, Unwrapped;
    var us := Marked(true, required) + Marked(false, largest);
    assert Values(us) == required + largest;
    r := SelectSortedUtxos(us, target);
    ghost var n := |r.selected|;
    assert n >= |required|;
    ghost var k := n - |required|;
    TakenCoins(required, largest, k);
    assert k > 0 ==> !us[n - 1].0;
    StoppedThere(required, largest, target, k);
  }

  /** The `k` largest coins were taken, by amounts that wrap around. */
  lemma StoppedThere(required: seq<Utxo>, largest: seq<Utxo>, target: nat, k: nat)
    requires Descending(largest) && k <= |largest|
    requires k > 0 ==> Counted(required + largest[..k - 1]) < target
    requires k < |largest| ==> Counted(required + largest[..k]) >= target
    ensures target < AmountLimit() ==>
              (Optimal(required, largest, target, largest[..k]) <==> Unwrapped(required, largest[..k]))
  {
    hide AmountLimit, SumBy, Counted, Descending, Optimal;
    TakenCoins(required, largest, k);
    CountedIs(required + largest[..k]);
    if k > 0 {
      assert largest[..k][..k - 1] == largest[..k - 1];
      CountedIs(required + largest[..k - 1]);
    }
    if Unwrapped(required, largest[..k]) {
      PrefixIsOptimal(required, largest, target, k);
    }
    if target < AmountLimit() && Optimal(required, largest, target, largest[..k]) {
      WrappedIsNotOptimal(required, largest, target, largest[..k]);
    }
  }

  lemma TakenCoins(required: seq<Utxo>, largest: seq<Utxo>, k: nat)
    requires k <= |largest|
    ensures (required + largest)[..|required| + k] == required + largest[..k]
    ensures (required + largest[..k])[|required|..] == largest[..k] && required <= required + largest[..k]
    ensures k > 0 ==> (required + largest)[..|required| + k - 1] == required + largest[..k - 1]
    ensures multiset(largest[..k]) <= multiset(largest)
  {
    assert largest == largest[..k] + largest[k..];
  }

  /** Everything required is selected, then eligible coins. The amount is the sum of the
      selection modulo the limit, so the sum itself exactly when that is below the limit.
      The selection is optimal (the target is reached whenever all coins together can, and
      no fewer eligible coins would reach it) exactly when no coin was added to a sum that
      had wrapped around. */
  method CoinSelect(required: seq<Utxo>, optional: seq<Utxo>, target: nat, token: Token) returns (r: Selection)
    ensures required <= r.selected && multiset(r.selected[|required|..]) <= multiset(Eligible(optional, token))
    ensures LargestFirst(Eligible(optional, token), r.selected[|required|..])
    ensures r.amount == Counted(r.selected)
    ensures r.amount == Sum(r.selected) <==> Sum(r.selected) < AmountLimit()
    ensures target < AmountLimit() ==>
              (Optimal(required, Eligible(optional, token), target, r.selected[|required|..]) <==>
               Unwrapped(required, r.selected[|required|..]))
    ensures target < AmountLimit() && Sum(required) + Sum(Eligible(optional, token)) < AmountLimit() ==>
              r.amount == Sum(r.selected) && Optimal(required, Eligible(optional, token), target, r.selected[|required|..])
  {
    hide AmountLimit, SumBy, Counted, Eligible, Optimal, Unwrapped, Descending, LargestFirst;
    var eligible := Eligible(optional, token);
    var sorted := SortByAmount(eligible);
    var largest := Reversed(sorted);
    assert Descending(largest) by { ReversedDescends(sorted); }
    r := SelectLargest(required, largest, target);
    ghost var chosen := r.selected[|required|..];
    PrefixIsLargest(largest, eligible, chosen);
    CountedIs(r.selected);
    SameOptimum(required, largest, eligible, target, chosen);
    assert r.selected == required + chosen;
    BelowLimit(required, eligible, chosen);
  }

  lemma ReversedDescends(us: seq<Utxo>)
    requires Ascending(us)
    ensures Descending(Reversed(us))
  {
  }

  lemma SameOptimum(required: seq<Utxo>, a: seq<Utxo>, b: seq<Utxo>, target: nat, chosen: seq<Utxo>)
    requires multiset(a) == multiset(b)
    ensures Optimal(required, a, target, chosen) <==> Optimal(required, b, target, chosen)
  {
    hide Optimal;
    if Optimal(required, a, target, chosen) {
      OptimalAnyOrder(required, a, b, target, chosen);
    }
    if Optimal(required, b, target, chosen) {
      OptimalAnyOrder(required, b, a, target, chosen);
    }
  }

  /** If all coins together stay below the limit, so does every selection. */
  lemma BelowLimit(required: seq<Utxo>, eligible: seq<Utxo>, chosen: seq<Utxo>)
    requires multiset(chosen) <= multiset(eligible)
    ensures Sum(required) + Sum(eligible) < AmountLimit() ==>
              Sum(required + chosen) < AmountLimit() && Unwrapped(required, chosen)
  {
    hide SumBy, AmountLimit;
    SumOfPart(chosen, eligible);
    SumConcat(AmountIn(), required, chosen);
    if chosen != [] {
      SumPrefix(AmountIn(), chosen, |chosen| - 1);
      SumConcat(AmountIn(), required, chosen[..|chosen| - 1]);
    }
  }

  lemma {:induction false} SumOfPart(part: seq<Utxo>, us: seq<Utxo>)
    requires multiset(part) <= multiset(us)
    ensures Sum(part) <= Sum(us)
    decreases |part|
  {
    hide SumBy, But;
    if part == [] {
      Empty();
    } else {
      assert part[0] in multiset(us);
      var i :| 0 <= i < |us| && us[i] == part[0];
      SumBut(AmountIn(), part, 0);
      SumBut(AmountIn(), us, i);
      Cancel(part[0], multiset(But(part, 0)), multiset(But(us, i)));
      SumOfPart(But(part, 0), But(us, i));
    }
  }
}
