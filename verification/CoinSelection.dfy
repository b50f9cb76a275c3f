/**
 Which coins a payment spends and what it costs (packages/pay/src/wallet/coin-selection.ts
 and `selectCoins` in packages/pay/src/wallet/utxo-set.ts).
 */
module CoinSelection {
  import opened Results
  import opened Coins

  const BYTES_PER_INPUT := 148

  /** The fee of a transaction with `inputs` inputs that pays `recipients` and change. */
  function Fee(inputs: nat, rate: nat, recipients: nat): nat {
    (10 + inputs * BYTES_PER_INPUT + (recipients + 1) * 34) * rate
  }

  function FeeAt(rate: nat, recipients: nat): nat -> nat {
    (inputs: nat) => Fee(inputs, rate, recipients)
  }

  // ------------------------------------------------------------------ largest first

  predicate Descending(coins: seq<Utxo>) {
    forall i, j :: 0 <= i < j < |coins| ==> coins[i].value >= coins[j].value
  }

  /** A stable insertion: behind the coins that are worth as much. */
  function Insert(coins: seq<Utxo>, u: Utxo): seq<Utxo> {
    if coins == [] || coins[0].value < u.value then [u] + coins else [coins[0]] + Insert(coins[1..], u)
  }

  /** `sort` by value, descending. */
  function Sorted(coins: seq<Utxo>): seq<Utxo> {
    if coins == [] then [] else Insert(Sorted(coins[..|coins| - 1]), coins[|coins| - 1])
  }

  lemma {:induction false} FirstApart(coins: seq<Utxo>)
    requires coins != []
    ensures multiset(coins) == multiset{coins[0]} + multiset(coins[1..])
  {
    assert coins == [coins[0]] + coins[1..];
  }

  lemma {:induction false} InsertMembers(coins: seq<Utxo>, u: Utxo)
    ensures multiset(Insert(coins, u)) == multiset(coins) + multiset{u}
  {
    if coins != [] && coins[0].value >= u.value {
      InsertMembers(coins[1..], u);
      FirstApart(coins);
      assert Insert(coins, u) == [coins[0]] + Insert(coins[1..], u);
    }
  }

  lemma {:induction false} InsertAtMost(coins: seq<Utxo>, u: Utxo, most: nat)
    requires u.value <= most && forall i :: 0 <= i < |coins| ==> coins[i].value <= most
    ensures forall i :: 0 <= i < |Insert(coins, u)| ==> Insert(coins, u)[i].value <= most
  {
    if coins != [] && coins[0].value >= u.value {
      InsertAtMost(coins[1..], u, most);
    }
  }

  lemma {:induction false} InsertDescending(coins: seq<Utxo>, u: Utxo)
    requires Descending(coins)
    ensures Descending(Insert(coins, u))
  {
    if coins != [] && coins[0].value >= u.value {
      InsertDescending(coins[1..], u);
      InsertAtMost(coins[1..], u, coins[0].value);
    }
  }

  lemma {:induction false} LastApart(coins: seq<Utxo>)
    requires coins != []
    ensures multiset(coins) == multiset(coins[..|coins| - 1]) + multiset{coins[|coins| - 1]}
  {
    assert coins == coins[..|coins| - 1] + [coins[|coins| - 1]];
  }

  lemma {:induction false} SortedMembers(coins: seq<Utxo>)
    ensures multiset(Sorted(coins)) == multiset(coins)
  {
    if coins != [] {
      SortedMembers(coins[..|coins| - 1]);
      InsertMembers(Sorted(coins[..|coins| - 1]), coins[|coins| - 1]);
      LastApart(coins);
    }
  }

  lemma {:induction false} SortedDescending(coins: seq<Utxo>)
    ensures Descending(Sorted(coins))
  {
    if coins != [] {
      SortedDescending(coins[..|coins| - 1]);
      InsertDescending(Sorted(coins[..|coins| - 1]), coins[|coins| - 1]);
    }
  }

  lemma {:induction false} SortedKeeps(coins: seq<Utxo>)
    ensures Descending(Sorted(coins)) && multiset(Sorted(coins)) == multiset(coins)
  {
    SortedDescending(coins);
    SortedMembers(coins);
  }

  /** The first `k` coins pay the amount and their own fee. */
  predicate Covers(coins: seq<Utxo>, k: nat, amount: nat, fee: nat -> nat) {
    k <= |coins| && Total(coins[..k]) >= amount + fee(k)
  }

  /** Some coins of the wallet, however chosen, pay the amount and their own fee. */
  ghost predicate CanPay(coins: seq<Utxo>, amount: nat, fee: nat -> nat) {
    exists chosen: seq<Utxo> :: Pays(coins, chosen, amount, fee)
  }

  ghost predicate Pays(coins: seq<Utxo>, chosen: seq<Utxo>, amount: nat, fee: nat -> nat) {
    chosen != [] && multiset(chosen) <= multiset(coins) && Total(chosen) >= amount + fee(|chosen|)
  }

  lemma {:induction false} ShiftedTotal(coins: seq<Utxo>, k: nat)
    requires Descending(coins) && k < |coins|
    ensures Total(coins[1..][..k]) <= Total(coins[..k])
  {
    if k > 0 {
      assert coins[1..][..k] == coins[1..][..k - 1] + [coins[k]];
      assert coins[..k] == coins[..k - 1] + [coins[k - 1]];
      TotalSnoc(coins[1..][..k - 1], coins[k]);
      TotalSnoc(coins[..k - 1], coins[k - 1]);
      ShiftedTotal(coins, k - 1);
    }
  }

  lemma {:induction false} WithoutOne(coins: seq<Utxo>, u: Utxo) returns (rest: seq<Utxo>)
    requires u in coins
    ensures multiset(coins) == multiset(rest) + multiset{u} && |coins| == |rest| + 1
      && Total(coins) == Total(rest) + u.value
  {
    var i :| 0 <= i < |coins| && coins[i] == u;
    rest := coins[..i] + coins[i + 1..];
    assert coins == coins[..i] + ([u] + coins[i + 1..]);
    TotalAppend(coins[..i], [u] + coins[i + 1..]);
    TotalAppend(coins[..i], coins[i + 1..]);
    assert ([u] + coins[i + 1..])[1..] == coins[i + 1..];
  }

  lemma {:induction false} Cancel(a: multiset<Utxo>, b: multiset<Utxo>, u: Utxo)
    requires a + multiset{u} <= multiset{u} + b
    ensures a <= b
  {
    forall x ensures a[x] <= b[x] {
      assert (a + multiset{u})[x] <= (multiset{u} + b)[x];
    }
  }

  lemma {:induction false} Absent(a: multiset<Utxo>, b: multiset<Utxo>, u: Utxo)
    requires a <= multiset{u} + b && u !in a
    ensures a <= b
  {
    forall x ensures a[x] <= b[x] {
      assert a[x] <= (multiset{u} + b)[x];
    }
  }

  lemma {:induction false} NoChoice(chosen: seq<Utxo>)
    requires multiset(chosen) <= multiset{}
    ensures chosen == []
  {
    assert |multiset(chosen)| == |chosen|;
  }

  lemma {:induction false} TotalFirst(coins: seq<Utxo>, k: nat)
    requires 1 <= k <= |coins|
    ensures Total(coins[..k]) == coins[0].value + Total(coins[1..][..k - 1])
  {
    assert coins[..k][1..] == coins[1..][..k - 1];
  }

  /** No choice of `k` coins is worth more than the `k` largest. */
  lemma {:induction false} LargestAreMost(coins: seq<Utxo>, chosen: seq<Utxo>)
    requires Descending(coins) && multiset(chosen) <= multiset(coins)
    ensures |chosen| <= |coins| && Total(chosen) <= Total(coins[..|chosen|])
    decreases |coins|
  {
    if coins == [] {
      NoChoice(chosen);
    } else {
      FirstApart(coins);
      if coins[0] in chosen {
        var others := WithoutOne(chosen, coins[0]);
        Cancel(multiset(others), multiset(coins[1..]), coins[0]);
        LargestAreMost(coins[1..], others);
        TotalFirst(coins, |chosen|);
      } else {
        Absent(multiset(chosen), multiset(coins[1..]), coins[0]);
        LargestAreMost(coins[1..], chosen);
        ShiftedTotal(coins, |chosen|);
      }
    }
  }

  /** Whatever can be paid at all can be paid largest first. */
  lemma {:induction false} CanPayLargest(coins: seq<Utxo>, sorted: seq<Utxo>, amount: nat, fee: nat -> nat)
      returns (k: nat)
    requires Descending(sorted) && multiset(sorted) == multiset(coins) && CanPay(coins, amount, fee)
    ensures 1 <= k <= |sorted| && Covers(sorted, k, amount, fee)
  {
    var chosen :| Pays(coins, chosen, amount, fee);
    LargestAreMost(sorted, chosen);
    k := |chosen|;
  }

  lemma {:induction false} LargestCanPay(coins: seq<Utxo>, sorted: seq<Utxo>, amount: nat, fee: nat -> nat, k: nat)
    requires multiset(sorted) == multiset(coins) && 1 <= k <= |sorted| && Covers(sorted, k, amount, fee)
    ensures CanPay(coins, amount, fee)
  {
    assert sorted == sorted[..k] + sorted[k..];
    assert Pays(coins, sorted[..k], amount, fee);
  }

  lemma {:induction false} CannotPay(coins: seq<Utxo>, sorted: seq<Utxo>, amount: nat, fee: nat -> nat)
    requires Descending(sorted) && multiset(sorted) == multiset(coins)
    requires NoneCovers(sorted, |sorted|, amount, fee)
    ensures !CanPay(coins, amount, fee)
  {
    if CanPay(coins, amount, fee) {
      NoneCoversAll(sorted, |sorted|, amount, fee);
      var k := CanPayLargest(coins, sorted, amount, fee);
    }
  }

  // ------------------------------------------------------------------ the selection

  datatype SelectError = NotPositive | Insufficient

  /** The coins to spend, the fee, and the change that comes back. */
  datatype Selection = Selection(selected: seq<Utxo>, fee: nat, change: nat)

  /** The first coins, largest first, that cover the amount with their own fee. */
  predicate FewestCover(sorted: seq<Utxo>, selected: seq<Utxo>, amount: nat, fee: nat -> nat) {
    && 1 <= |selected| <= |sorted| && selected == sorted[..|selected|]
    && Covers(sorted, |selected|, amount, fee)
    && forall k :: 1 <= k < |selected| ==> !Covers(sorted, k, amount, fee)
  }

  predicate NoneCovers(sorted: seq<Utxo>, n: nat, amount: nat, fee: nat -> nat) {
    n == 0 || (NoneCovers(sorted, n - 1, amount, fee) && !Covers(sorted, n, amount, fee))
  }

  lemma {:induction false} NoneCoversAll(sorted: seq<Utxo>, n: nat, amount: nat, fee: nat -> nat)
    requires NoneCovers(sorted, n, amount, fee)
    ensures forall k :: 1 <= k <= n ==> !Covers(sorted, k, amount, fee)
  {
    if n > 0 {
      NoneCoversAll(sorted, n - 1, amount, fee);
    }
  }

  lemma {:induction false} FirstCover(sorted: seq<Utxo>, k: nat, amount: nat, fee: nat -> nat)
    requires 1 <= k <= |sorted| && NoneCovers(sorted, k - 1, amount, fee) && Covers(sorted, k, amount, fee)
    ensures FewestCover(sorted, sorted[..k], amount, fee)
  {
    NoneCoversAll(sorted, k - 1, amount, fee);
  }

  function Confirmed(coins: seq<Utxo>): seq<Utxo> {
    if coins == [] then [] else (if coins[0].confirmed then [coins[0]] else []) + Confirmed(coins[1..])
  }

  lemma {:induction false} ConfirmedMembers(coins: seq<Utxo>)
    ensures forall c :: c in Confirmed(coins) <==> c in coins && c.confirmed
  {
    if coins != [] {
      ConfirmedMembers(coins[1..]);
    }
  }

  /** The loop of `selectCoins`: coins are taken, largest first, until they cover the amount. */
  method TakeLargest(coins: seq<Utxo>, amount: nat, fee: nat -> nat) returns (selected: Option<seq<Utxo>>)
    ensures selected.Some? ==> FewestCover(Sorted(coins), selected.value, amount, fee)
    ensures selected.None? <==> !CanPay(coins, amount, fee)
  {
    var available := Sorted(coins);
    SortedKeeps(coins);
    var taken: seq<Utxo> := [];
    var total := 0;
    for i := 0 to |available|
      invariant taken == available[..i] && total == Total(taken)
      invariant NoneCovers(available, i, amount, fee)
    {
      TotalSnoc(taken, available[i]);
      taken, total := taken + [available[i]], total + available[i].value;
      assert taken == available[..i + 1];
      if total >= amount + fee(|taken|) {
        FirstCover(available, i + 1, amount, fee);
        LargestCanPay(coins, available, amount, fee, i + 1);
        return Some(taken);
      }
    }
    CannotPay(coins, available, amount, fee);
    return None;
  }

  lemma {:induction false} ConfirmedAll(coins: seq<Utxo>)
    requires forall c :: c in coins ==> c.confirmed
    ensures Confirmed(coins) == coins
  {
    if coins != [] {
      assert coins[0] in coins;
      ConfirmedAll(coins[1..]);
    }
  }

  /**
   The worth is the amount, the fee and the change, and change that would cost more than it is worth
   goes to the fee.
   */
  ghost predicate Settles(s: Selection, amount: int, fee: nat -> nat, floor: nat) {
    && Total(s.selected) == amount + s.fee + s.change
    && (s.change == 0 || s.change >= floor)
    && fee(|s.selected|) <= s.fee
    && (s.fee > fee(|s.selected|) ==> s.change == 0 && s.fee < fee(|s.selected|) + floor)
  }

  /**
   `selectCoins`: the fewest of the largest confirmed coins that cover the amount
   and their own fee, or nothing when no choice of them does.
   */
  method SelectCoins(coins: seq<Utxo>, amount: int, rate: nat, recipients: nat)
      returns (chosen: Result<Selection, SelectError>)
    ensures chosen.Err? <==> amount <= 0 || !CanPay(Confirmed(coins), amount, FeeAt(rate, recipients))
    ensures chosen.Err? ==> (chosen.error.NotPositive? <==> amount <= 0)
    ensures chosen.Ok? ==> amount > 0 && FewestCover(Sorted(Confirmed(coins)), chosen.value.selected, amount,
      FeeAt(rate, recipients))
    ensures chosen.Ok? ==> Settles(chosen.value, amount, FeeAt(rate, recipients), BYTES_PER_INPUT * rate)
  {
    if amount <= 0 {
      return Err(NotPositive);
    }
    var taken := TakeLargest(Confirmed(coins), amount, FeeAt(rate, recipients));
    if taken.None? {
      return Err(Insufficient);
    }
    var selected := taken.value;
    assert selected == Sorted(Confirmed(coins))[..|selected|];
    var total := Total(selected);
    var estimated := Fee(|selected|, rate, recipients);
    var change := total - amount - estimated;
    if 0 < change < BYTES_PER_INPUT * rate {
      return Ok(Selection(selected, total - amount, 0));
    }
    return Ok(Selection(selected, estimated, change));
  }

  /** Change above the dust threshold comes back, any less goes to the fee. */
  function FeeAndChange(total: nat, amount: nat, inputs: nat, fee: nat -> nat, dust: nat): (nat, nat)
    requires total >= amount + fee(inputs)
  {
    var change := total - amount - fee(inputs);
    if change > dust then (fee(inputs), change) else (total - amount, 0)
  }

  /**
   What a selection promises: distinct confirmed coins of the wallet, whose worth
   is the amount, the fee and the change, and a fee that pays for the bytes and
   exceeds that by at most the dust threshold.
   */
  ghost predicate IsSelection(s: Selection, candidates: seq<Utxo>, amount: nat, fee: nat -> nat, dust: nat) {
    && s.selected != [] && Distinct(s.selected)
    && (forall c :: c in s.selected ==> c in candidates && c.confirmed)
    && Total(s.selected) == amount + s.fee + s.change
    && (s.change == 0 || s.change > dust)
    && fee(|s.selected|) <= s.fee <= fee(|s.selected|) + dust
    && (s.change > 0 ==> s.fee == fee(|s.selected|))
  }

  /** The one selection that takes the fewest of the largest coins. */
  ghost predicate IsLargestFirst(s: Selection, candidates: seq<Utxo>, amount: nat, fee: nat -> nat, dust: nat) {
    && FewestCover(Sorted(Collect(Confirmed(candidates))), s.selected, amount, fee)
    && (s.fee, s.change) == FeeAndChange(Total(s.selected), amount, |s.selected|, fee, dust)
  }

  /** Largest first fixes the coins, the fee and the change. */
  lemma {:induction false} SelectionIsUnique(s: Selection, t: Selection, candidates: seq<Utxo>, amount: nat,
      fee: nat -> nat, dust: nat)
    requires IsLargestFirst(s, candidates, amount, fee, dust)
    requires IsLargestFirst(t, candidates, amount, fee, dust)
    ensures s == t
  {
    assert |s.selected| == |t.selected|;
  }

  /**
   `selectInputsForSend` without coin control. It refuses exactly an amount that is
   not positive and one that no choice of the confirmed coins can pay.
   */
  method Select(candidates: seq<Utxo>, amount: int, rate: nat, recipients: nat, dust: nat)
      returns (selection: Result<Selection, SelectError>)
    ensures selection.Err? <==> amount <= 0 || !CanPay(Collect(Confirmed(candidates)), amount, FeeAt(rate, recipients))
    ensures selection.Err? ==> (selection.error.NotPositive? <==> amount <= 0)
    ensures selection.Ok? ==>
      amount > 0
      && IsSelection(selection.value, candidates, amount, FeeAt(rate, recipients), dust)
    ensures selection.Ok? ==> IsLargestFirst(selection.value, candidates, amount, FeeAt(rate, recipients), dust)
  {
    if amount <= 0 {
      return Err(NotPositive);
    }
    var confirmed := new UTXOSet();
    confirmed.AddAll(Confirmed(candidates));
    ConfirmedMembers(candidates);
    CollectKeeps(Confirmed(candidates));
    ConfirmedAll(confirmed.coins);
    var chosen := SelectCoins(confirmed.coins, amount, rate, recipients);
    if chosen.Err? {
      return Err(chosen.error);
    }
    var s := chosen.value.selected;
    PrefixOfSorted(confirmed.coins, |s|);
    var paid := FeeAndChange(Total(s), amount, |s|, FeeAt(rate, recipients), dust);
    return Ok(Selection(s, paid.0, paid.1));
  }

  lemma {:induction false} PrefixOfSorted(coins: seq<Utxo>, k: nat)
    requires Distinct(coins) && k <= |Sorted(coins)|
    ensures Distinct(Sorted(coins)[..k]) && forall c :: c in Sorted(coins)[..k] ==> c in coins
  {
    SortedKeeps(coins);
    PermutedDistinct(coins, Sorted(coins));
    forall c | c in Sorted(coins)[..k] ensures c in coins {
      assert c in multiset(Sorted(coins));
    }
  }

  lemma {:induction false} PermutedDistinct(coins: seq<Utxo>, sorted: seq<Utxo>)
    requires Distinct(coins) && multiset(sorted) == multiset(coins)
    ensures Distinct(sorted)
  {
    DistinctIsOnce(coins);
    forall i, j | 0 <= i < j < |sorted| ensures Key(sorted[i]) != Key(sorted[j]) {
      assert sorted[i] in multiset(sorted) && sorted[j] in multiset(sorted);
      SameKeySame(coins, sorted[i], sorted[j]);
      if sorted[i] == sorted[j] {
        TwiceInSequence(sorted, i, j);
      }
    }
  }

  lemma {:induction false} SameKeySame(coins: seq<Utxo>, a: Utxo, b: Utxo)
    requires Distinct(coins) && a in coins && b in coins
    ensures Key(a) == Key(b) ==> a == b
  {
    var i :| 0 <= i < |coins| && coins[i] == a;
    var j :| 0 <= j < |coins| && coins[j] == b;
  }

  lemma {:induction false} DistinctIsOnce(coins: seq<Utxo>)
    requires Distinct(coins)
    ensures forall c :: c in coins ==> multiset(coins)[c] == 1
  {
    if coins != [] {
      assert coins == [coins[0]] + coins[1..];
      DistinctIsOnce(coins[1..]);
      forall c | c in coins[1..] ensures c != coins[0] {
        var i :| 0 <= i < |coins[1..]| && coins[1..][i] == c;
        assert coins[i + 1] == c;
      }
      assert multiset(coins[1..])[coins[0]] == 0;
    }
  }

  lemma {:induction false} TwiceInSequence(coins: seq<Utxo>, i: nat, j: nat)
    requires i < j < |coins| && coins[i] == coins[j]
    ensures multiset(coins)[coins[i]] >= 2
  {
    assert coins == coins[..i] + [coins[i]] + coins[i + 1..j] + [coins[j]] + coins[j + 1..];
  }

  // ------------------------------------------------------------- the most to be sent

  /** `poolTotal - feeForFullPool`, or nothing. */
  function MaxSendable(candidates: seq<Utxo>, fee: nat -> nat): nat {
    var pool := Confirmed(candidates);
    var all := if |pool| > 0 then fee(|pool|) else 0;
    if Total(pool) > all then Total(pool) - all else 0
  }

  /** What the first `k` coins can pay beside their own fee. */
  function Net(sorted: seq<Utxo>, k: nat, fee: nat -> nat): int
    requires k <= |sorted|
  {
    Total(sorted[..k]) - fee(k)
  }

  /** Every input adds `cost` to the fee. */
  ghost predicate Linear(fee: nat -> nat, cost: nat) {
    forall k: nat :: AddsCost(fee, k, cost)
  }

  predicate AddsCost(fee: nat -> nat, k: nat, cost: nat) {
    fee(k + 1) == fee(k) + cost
  }

  lemma {:induction false} FeeIsLinear(rate: nat, recipients: nat)
    ensures Linear(FeeAt(rate, recipients), BYTES_PER_INPUT * rate)
  {
    forall k: nat ensures AddsCost(FeeAt(rate, recipients), k, BYTES_PER_INPUT * rate) {
      FeeStep(10 + k * BYTES_PER_INPUT + (recipients + 1) * 34, rate);
      assert 10 + (k + 1) * BYTES_PER_INPUT + (recipients + 1) * 34
          == 10 + k * BYTES_PER_INPUT + (recipients + 1) * 34 + BYTES_PER_INPUT;
    }
  }

  lemma {:induction false} FeeStep(size: nat, rate: nat)
    ensures (size + BYTES_PER_INPUT) * rate == size * rate + BYTES_PER_INPUT * rate
  {
  }

  lemma {:induction false} NetStep(sorted: seq<Utxo>, k: nat, fee: nat -> nat, cost: nat)
    requires k < |sorted| && Linear(fee, cost)
    ensures Net(sorted, k + 1, fee) == Net(sorted, k, fee) + sorted[k].value - cost
  {
    assert sorted[..k + 1] == sorted[..k] + [sorted[k]];
    TotalSnoc(sorted[..k], sorted[k]);
    assert AddsCost(fee, k, cost);
  }

  /** What coins that are not worth the bytes that spend them fall short by. */
  function Shortfall(coins: seq<Utxo>, cost: nat): nat {
    if coins == [] then 0
    else (if coins[0].value < cost then cost - coins[0].value else 0) + Shortfall(coins[1..], cost)
  }

  /** What spending all coins loses: at least one is spent anyway, so the largest does not count. */
  function SmallLoss(sorted: seq<Utxo>, cost: nat): nat {
    if sorted == [] then 0 else Shortfall(sorted[1..], cost)
  }

  /** What the best choice of coins leaves beside its own fee. */
  function Best(sorted: seq<Utxo>, fee: nat -> nat, cost: nat): int {
    Net(sorted, |sorted|, fee) + SmallLoss(sorted, cost)
  }

  lemma {:induction false} ShortfallNone(coins: seq<Utxo>, cost: nat)
    ensures Shortfall(coins, cost) == 0 <==> forall i :: 0 <= i < |coins| ==> coins[i].value >= cost
  {
    if coins != [] {
      ShortfallNone(coins[1..], cost);
      assert forall i :: 1 <= i < |coins| ==> coins[i] == coins[1..][i - 1];
    }
  }

  lemma {:induction false} ShortfallTail(coins: seq<Utxo>, k: nat, cost: nat)
    requires k < |coins|
    ensures Shortfall(coins[k..], cost)
      == (if coins[k].value < cost then cost - coins[k].value else 0) + Shortfall(coins[k + 1..], cost)
  {
    assert coins[k..][1..] == coins[k + 1..];
  }

  /** No number of the largest coins leaves more than the best. */
  lemma {:induction false} NetAtMost(sorted: seq<Utxo>, k: nat, fee: nat -> nat, cost: nat)
    requires Linear(fee, cost) && 1 <= k <= |sorted|
    ensures Net(sorted, k, fee) <= Net(sorted, |sorted|, fee) + Shortfall(sorted[k..], cost)
    ensures Shortfall(sorted[k..], cost) <= SmallLoss(sorted, cost)
    decreases |sorted| - k
  {
    if k < |sorted| {
      NetStep(sorted, k, fee, cost);
      ShortfallTail(sorted, k, cost);
      NetAtMost(sorted, k + 1, fee, cost);
    }
    ShortfallShrinks(sorted, 1, k, cost);
  }

  lemma {:induction false} ShortfallShrinks(coins: seq<Utxo>, m: nat, k: nat, cost: nat)
    requires m <= k <= |coins|
    ensures Shortfall(coins[k..], cost) <= Shortfall(coins[m..], cost)
    decreases k - m
  {
    if m < k {
      ShortfallTail(coins, m, cost);
      ShortfallShrinks(coins, m + 1, k, cost);
    }
  }

  /** Some number of them leaves the best: those before the first that is not worth its bytes. */
  lemma {:induction false} NetAttains(sorted: seq<Utxo>, k: nat, fee: nat -> nat, cost: nat) returns (best: nat)
    requires Linear(fee, cost) && Descending(sorted) && 1 <= k <= |sorted|
    ensures k <= best <= |sorted| && Net(sorted, best, fee) == Net(sorted, |sorted|, fee) + Shortfall(sorted[k..], cost)
    decreases |sorted| - k
  {
    best := k;
    if k < |sorted| {
      ShortfallTail(sorted, k, cost);
      if sorted[k].value >= cost {
        best := NetAttains(sorted, k + 1, fee, cost);
      } else {
        NetOfSmall(sorted, k, fee, cost);
      }
    }
  }

  lemma {:induction false} NetOfSmall(sorted: seq<Utxo>, k: nat, fee: nat -> nat, cost: nat)
    requires Linear(fee, cost) && Descending(sorted) && k <= |sorted| && (k < |sorted| ==> sorted[k].value < cost)
    ensures Net(sorted, k, fee) == Net(sorted, |sorted|, fee) + Shortfall(sorted[k..], cost)
    decreases |sorted| - k
  {
    if k < |sorted| {
      NetStep(sorted, k, fee, cost);
      ShortfallTail(sorted, k, cost);
      NetOfSmall(sorted, k + 1, fee, cost);
    }
  }

  /** Exactness of `max`: what is payable is what is at most `max`. */
  ghost predicate IsMostPayable(pool: seq<Utxo>, max: nat, fee: nat -> nat) {
    forall amount: nat :: amount > 0 ==> (CanPay(pool, amount, fee) <==> amount <= max)
  }

  /** The best choice leaves the most that can be sent. */
  lemma {:induction false} BestIsMost(pool: seq<Utxo>, sorted: seq<Utxo>, fee: nat -> nat, cost: nat)
    requires Linear(fee, cost) && Descending(sorted) && multiset(sorted) == multiset(pool) && sorted != []
    ensures forall amount: nat :: amount > 0 ==> (CanPay(pool, amount, fee) <==> amount <= Best(sorted, fee, cost))
  {
    var best := NetAttains(sorted, 1, fee, cost);
    forall amount: nat | amount > 0 ensures CanPay(pool, amount, fee) <==> amount <= Best(sorted, fee, cost) {
      if CanPay(pool, amount, fee) {
        var k := CanPayLargest(pool, sorted, amount, fee);
        NetAtMost(sorted, k, fee, cost);
      }
      if amount <= Best(sorted, fee, cost) {
        LargestCanPay(pool, sorted, amount, fee, best);
      }
    }
  }

  lemma {:induction false} NoneCanPay(pool: seq<Utxo>, amount: nat, fee: nat -> nat)
    requires pool == []
    ensures !CanPay(pool, amount, fee)
  {
    if CanPay(pool, amount, fee) {
      var k := CanPayLargest(pool, [], amount, fee);
    }
  }

  lemma {:induction false} SameTotal(a: seq<Utxo>, b: seq<Utxo>)
    requires multiset(a) == multiset(b)
    ensures Total(a) == Total(b)
  {
    if a != [] {
      assert a == [a[0]] + a[1..];
      assert a[0] in multiset(b);
      var rest := WithoutOne(b, a[0]);
      assert multiset(a[1..]) == multiset(a) - multiset{a[0]} && multiset(rest) == multiset(b) - multiset{a[0]};
      SameTotal(a[1..], rest);
    } else {
      assert |multiset(a)| == |multiset(b)| == |b|;
    }
  }

  /** The coin whose place in the set `u` takes. */
  function Displaced(coins: seq<Utxo>, u: Utxo): seq<Utxo> {
    var i := Place(coins, Key(u));
    if i < |coins| then [coins[i]] else []
  }

  /** The discovered coins that a later repeat of their outpoint replaces. */
  function Replaced(list: seq<Utxo>): seq<Utxo> {
    if list == [] then [] else
      Replaced(list[..|list| - 1]) + Displaced(Collect(list[..|list| - 1]), list[|list| - 1])
  }

  lemma {:induction false} TotalUpdate(coins: seq<Utxo>, i: nat, u: Utxo)
    requires i < |coins|
    ensures Total(coins[i := u]) + coins[i].value == Total(coins) + u.value
  {
    if i == 0 {
      assert coins[i := u][1..] == coins[1..];
    } else {
      assert coins[i := u][1..] == coins[1..][i - 1 := u];
      TotalUpdate(coins[1..], i - 1, u);
    }
  }

  lemma {:induction false} PutAdds(coins: seq<Utxo>, u: Utxo)
    ensures |Put(coins, u)| + |Displaced(coins, u)| == |coins| + 1
    ensures Total(Put(coins, u)) + Total(Displaced(coins, u)) == Total(coins) + u.value
  {
    var i := Place(coins, Key(u));
    if i < |coins| {
      TotalUpdate(coins, i, u);
      assert [coins[i]][1..] == [];
    } else {
      TotalSnoc(coins, u);
    }
  }

  lemma {:induction false} TotalLast(list: seq<Utxo>)
    requires list != []
    ensures Total(list) == Total(list[..|list| - 1]) + list[|list| - 1].value
  {
    assert list == list[..|list| - 1] + [list[|list| - 1]];
    TotalSnoc(list[..|list| - 1], list[|list| - 1]);
  }

  /** Every discovered coin is in the set or replaced. */
  lemma {:induction false} ReplacedIsTheRest(list: seq<Utxo>)
    ensures |list| == |Collect(list)| + |Replaced(list)|
    ensures Total(list) == Total(Collect(list)) + Total(Replaced(list))
  {
    if list != [] {
      var before, u := list[..|list| - 1], list[|list| - 1];
      ReplacedIsTheRest(before);
      TotalLast(list);
      PutAdds(Collect(before), u);
      TotalAppend(Replaced(before), Displaced(Collect(before), u));
    }
  }

  lemma {:induction false} NoneReplaced(list: seq<Utxo>)
    requires Distinct(list)
    ensures Replaced(list) == []
  {
    if list != [] {
      var before, u := list[..|list| - 1], list[|list| - 1];
      NoneReplaced(before);
      CollectKeeps(before);
    }
  }

  /** What counting the replaced coins again adds to the pool, beyond the bytes that would spend them. */
  function RepeatGain(list: seq<Utxo>, cost: nat): int {
    Total(Replaced(list)) - |Replaced(list)| * cost
  }

  lemma {:induction false} FeeGrows(fee: nat -> nat, cost: nat, n: nat, more: nat)
    requires Linear(fee, cost)
    ensures fee(n + more) == fee(n) + more * cost
  {
    if more > 0 {
      FeeGrows(fee, cost, n, more - 1);
      assert AddsCost(fee, n + more - 1, cost);
      OneMore(more - 1, cost);
    }
  }

  lemma {:induction false} OneMore(n: nat, cost: nat)
    ensures (n + 1) * cost == n * cost + cost
  {
  }

  /** What `maxSendable` counts: the best choice, less what small coins lose, plus what repeats seem to add. */
  lemma {:induction false} FeeOfAll(fee: nat -> nat, cost: nat, all: nat, n: nat, more: nat)
    requires Linear(fee, cost) && all == n + more
    ensures fee(all) == fee(n) + more * cost
  {
    FeeGrows(fee, cost, n, more);
  }

  lemma {:induction false} PoolNet(candidates: seq<Utxo>, fee: nat -> nat, cost: nat)
    requires Linear(fee, cost)
    ensures
      var list := Confirmed(candidates);
      var sorted := Sorted(Collect(list));
      Total(list) - fee(|list|) == Best(sorted, fee, cost) - SmallLoss(sorted, cost) + RepeatGain(list, cost)
  {
    PoolNetOf(Confirmed(candidates), fee, cost);
  }

  lemma {:induction false} PoolNetOf(list: seq<Utxo>, fee: nat -> nat, cost: nat)
    requires Linear(fee, cost)
    ensures Total(list) - fee(|list|) == Net(Sorted(Collect(list)), |Sorted(Collect(list))|, fee)
      + RepeatGain(list, cost)
  {
    SortedTotals(Collect(list), fee);
    ReplacedIsTheRest(list);
    FeeOfAll(fee, cost, |list|, |Collect(list)|, |Replaced(list)|);
  }

  lemma {:induction false} SortedTotals(coins: seq<Utxo>, fee: nat -> nat)
    ensures |Sorted(coins)| == |coins| && Net(Sorted(coins), |Sorted(coins)|, fee) == Total(coins) - fee(|coins|)
  {
    var sorted := Sorted(coins);
    SortedKeeps(coins);
    SameTotal(sorted, coins);
    assert |multiset(sorted)| == |sorted| && |multiset(coins)| == |coins|;
    assert sorted[..|sorted|] == sorted;
  }

  lemma {:induction false} CollectedSome(list: seq<Utxo>)
    ensures Sorted(Collect(list)) == [] <==> list == []
  {
    SortedKeeps(Collect(list));
    assert |multiset(Sorted(Collect(list)))| == |Sorted(Collect(list))|;
    assert |multiset(Collect(list))| == |Collect(list)|;
  }

  /**
   `maxSendable` is the most that can be sent out of the coins a payment spends,
   exactly when what repeats add to it makes up for what small coins take from it,
   or, when nothing can be sent, the discovered coins are worth no more than their fee.
   */
  lemma {:induction false} MaxSendableIff(candidates: seq<Utxo>, rate: nat, recipients: nat)
    ensures
      var list, fee, cost := Confirmed(candidates), FeeAt(rate, recipients), BYTES_PER_INPUT * rate;
      IsMostPayable(Collect(list), MaxSendable(candidates, fee), fee) <==>
        if CanPay(Collect(list), 1, fee) then RepeatGain(list, cost) == SmallLoss(Sorted(Collect(list)), cost)
        else Total(list) <= fee(|list|)
  {
    FeeIsLinear(rate, recipients);
    MaxSendableAt(candidates, FeeAt(rate, recipients), BYTES_PER_INPUT * rate);
  }

  lemma {:induction false} MaxSendableAt(candidates: seq<Utxo>, fee: nat -> nat, cost: nat)
    requires Linear(fee, cost)
    ensures
      var list := Confirmed(candidates);
      IsMostPayable(Collect(list), MaxSendable(candidates, fee), fee) <==>
        if CanPay(Collect(list), 1, fee) then RepeatGain(list, cost) == SmallLoss(Sorted(Collect(list)), cost)
        else Total(list) <= fee(|list|)
  {
    var list := Confirmed(candidates);
    CollectedSome(list);
    if list == [] {
      NothingSendable(Collect(list), fee);
    } else {
      PoolNet(candidates, fee, cost);
      SortedKeeps(Collect(list));
      BestIsMost(Collect(list), Sorted(Collect(list)), fee, cost);
      ExactIff(Collect(list), MaxSendable(candidates, fee), Best(Sorted(Collect(list)), fee, cost),
          Total(list) - fee(|list|), fee);
    }
  }

  lemma {:induction false} NothingSendable(pool: seq<Utxo>, fee: nat -> nat)
    requires pool == []
    ensures IsMostPayable(pool, 0, fee) && !CanPay(pool, 1, fee)
  {
    forall amount: nat ensures !CanPay(pool, amount, fee) {
      NoneCanPay(pool, amount, fee);
    }
  }

  lemma {:induction false} ExactIff(pool: seq<Utxo>, max: nat, best: int, left: int, fee: nat -> nat)
    requires forall amount: nat :: amount > 0 ==> (CanPay(pool, amount, fee) <==> amount <= best)
    requires max == if left > 0 then left else 0
    ensures IsMostPayable(pool, max, fee) <==> if CanPay(pool, 1, fee) then left == best else left <= 0
  {
    MostIsUnique(pool, max, best, fee);
  }

  lemma {:induction false} MostIsUnique(pool: seq<Utxo>, max: nat, best: int, fee: nat -> nat)
    requires forall amount: nat :: amount > 0 ==> (CanPay(pool, amount, fee) <==> amount <= best)
    ensures IsMostPayable(pool, max, fee) <==> max == if best > 0 then best else 0
    ensures CanPay(pool, 1, fee) <==> best > 0
  {
    if IsMostPayable(pool, max, fee) {
      assert max > 0 ==> CanPay(pool, max, fee);
      assert best > 0 ==> CanPay(pool, best, fee);
    }
  }

  /** Every coin but the largest is worth the bytes that spend it. */
  predicate PaysItsWay(sorted: seq<Utxo>, cost: nat) {
    forall i :: 1 <= i < |sorted| ==> sorted[i].value >= cost
  }

  lemma {:induction false} PaysItsWayIff(sorted: seq<Utxo>, cost: nat)
    ensures PaysItsWay(sorted, cost) <==> SmallLoss(sorted, cost) == 0
  {
    if sorted != [] {
      ShortfallNone(sorted[1..], cost);
      assert forall i :: 1 <= i < |sorted| ==> sorted[i] == sorted[1..][i - 1];
    }
  }

  /**
   When discovery repeats no outpoint, `maxSendable` is exact exactly when every
   coin but the largest is worth the bytes that spend it, or nothing can be sent.
   */
  lemma {:induction false} MaxSendableOnceIff(candidates: seq<Utxo>, rate: nat, recipients: nat)
    requires Distinct(Confirmed(candidates))
    ensures
      var coins, fee := Collect(Confirmed(candidates)), FeeAt(rate, recipients);
      IsMostPayable(coins, MaxSendable(candidates, fee), fee) <==>
        PaysItsWay(Sorted(coins), BYTES_PER_INPUT * rate) || !CanPay(coins, 1, fee)
  {
    var list, fee, cost := Confirmed(candidates), FeeAt(rate, recipients), BYTES_PER_INPUT * rate;
    var sorted := Sorted(Collect(list));
    MaxSendableIff(candidates, rate, recipients);
    NoneReplaced(list);
    PaysItsWayIff(sorted, cost);
    FeeIsLinear(rate, recipients);
    PoolNet(candidates, fee, cost);
    SortedKeeps(Collect(list));
    CollectedSome(list);
    if list != [] {
      BestIsMost(Collect(list), sorted, fee, cost);
    }
  }

  lemma {:induction false} GainNone(coins: seq<Utxo>, cost: nat)
    requires forall i :: 0 <= i < |coins| ==> coins[i].value >= cost
    ensures Total(coins) >= |coins| * cost
    ensures Total(coins) == |coins| * cost <==> forall i :: 0 <= i < |coins| ==> coins[i].value == cost
  {
    if coins != [] {
      GainNone(coins[1..], cost);
      OneMore(|coins[1..]|, cost);
      assert forall i :: 1 <= i < |coins| ==> coins[i] == coins[1..][i - 1];
    }
  }

  /**
   When every coin is worth its bytes and something can be sent, `maxSendable` is
   exact exactly when every repeat discovery adds is worth just the bytes it would
   cost; any repeat worth more makes it too high.
   */
  lemma {:induction false} RepeatsInflateIff(candidates: seq<Utxo>, rate: nat, recipients: nat)
    requires
      var list, cost := Confirmed(candidates), BYTES_PER_INPUT * rate;
      && (forall i :: 0 <= i < |list| ==> list[i].value >= cost)
      && CanPay(Collect(list), 1, FeeAt(rate, recipients))
    ensures
      var list, fee, cost := Confirmed(candidates), FeeAt(rate, recipients), BYTES_PER_INPUT * rate;
      IsMostPayable(Collect(list), MaxSendable(candidates, fee), fee) <==>
        forall i :: 0 <= i < |Replaced(list)| ==> Replaced(list)[i].value == cost
  {
    var list, cost := Confirmed(candidates), BYTES_PER_INPUT * rate;
    var sorted := Sorted(Collect(list));
    MaxSendableIff(candidates, rate, recipients);
    CollectKeeps(list);
    SortedKeeps(Collect(list));
    forall i | 1 <= i < |sorted| ensures sorted[i].value >= cost {
      assert sorted[i] in multiset(sorted);
      assert sorted[i] in list;
    }
    PaysItsWayIff(sorted, cost);
    forall i | 0 <= i < |Replaced(list)| ensures Replaced(list)[i].value >= cost {
      ReplacedMembers(list, i);
    }
    GainNone(Replaced(list), cost);
  }

  lemma {:induction false} ReplacedMembers(list: seq<Utxo>, i: nat)
    requires i < |Replaced(list)|
    ensures Replaced(list)[i] in list
  {
    var before, u := list[..|list| - 1], list[|list| - 1];
    if i < |Replaced(before)| {
      ReplacedMembers(before, i);
    } else {
      var j := Place(Collect(before), Key(u));
      CollectKeeps(before);
      assert Replaced(list)[i] == Collect(before)[j];
      assert Collect(before)[j] in before;
    }
  }

  // ------------------------------------------------------------------------- quotes

  /** `fee` and `total` are there when the amount is positive and can be covered. */
  datatype Estimate = Estimate(fee: Option<nat>, total: Option<nat>, insufficient: bool, max: nat)

  /** What a quote promises: the fee and the total of the one selection, or that there is none. */
  ghost predicate IsQuote(e: Estimate, candidates: seq<Utxo>, amount: int, fee: nat -> nat, dust: nat) {
    && e.max == MaxSendable(candidates, fee)
    && (e.insufficient <==> amount > 0 && !CanPay(Collect(Confirmed(candidates)), amount, fee))
    && (e.fee.Some? <==> amount > 0 && !e.insufficient)
    && (e.total.Some? <==> e.fee.Some?)
    && (e.fee.Some? ==>
          forall s: Selection :: IsLargestFirst(s, candidates, amount, fee, dust) ==> IsPriced(e, s, amount))
  }

  predicate IsPriced(e: Estimate, s: Selection, amount: int) {
    e.fee == Some(s.fee) && e.total.Some? && e.total.value == amount + s.fee
  }

  /** `estimateSend` without coin control: it never throws. */
  method EstimateSend(candidates: seq<Utxo>, amount: int, rate: nat, recipients: nat, dust: nat) returns (e: Estimate)
    ensures IsQuote(e, candidates, amount, FeeAt(rate, recipients), dust)
  {
    var pool := Confirmed(candidates);
    var poolTotal := Total(pool);
    var feeForFullPool := if |pool| > 0 then Fee(|pool|, rate, recipients) else 0;
    var max := if poolTotal > feeForFullPool then poolTotal - feeForFullPool else 0;
    if amount <= 0 {
      return Estimate(None, None, false, max);
    }
    var selection := Select(candidates, amount, rate, recipients, dust);
    if selection.Err? {
      return Estimate(None, None, true, max);
    }
    e := Estimate(Some(selection.value.fee), Some(amount + selection.value.fee), false, max);
    forall s: Selection | IsLargestFirst(s, candidates, amount, FeeAt(rate, recipients), dust)
      ensures IsPriced(e, s, amount)
    {
      SelectionIsUnique(s, selection.value, candidates, amount, FeeAt(rate, recipients), dust);
    }
  }

  /** The quote is the bill: whatever is selected for the amount at that rate costs what was quoted. */
  lemma {:induction false} QuoteIsTheBill(e: Estimate, s: Selection, candidates: seq<Utxo>, amount: nat,
      fee: nat -> nat, dust: nat)
    requires IsQuote(e, candidates, amount, fee, dust) && amount > 0
    requires IsLargestFirst(s, candidates, amount, fee, dust)
    ensures !e.insufficient && e.fee == Some(s.fee) && e.total == Some(amount + s.fee)
  {
    SelectedCanPay(s, candidates, amount, fee, dust);
    assert IsPriced(e, s, amount);
  }

  lemma {:induction false} SelectedCanPay(s: Selection, candidates: seq<Utxo>, amount: nat, fee: nat -> nat, dust: nat)
    requires IsLargestFirst(s, candidates, amount, fee, dust)
    ensures CanPay(Collect(Confirmed(candidates)), amount, fee)
  {
    var coins := Collect(Confirmed(candidates));
    SortedMembers(coins);
    LargestCanPay(coins, Sorted(coins), amount, fee, |s.selected|);
  }

  // ----------------------------------------------------------------- concrete wallets

  function Coin(txid: string, value: nat): Utxo {
    Utxo(txid, 0, "", value, "", 1, true)
  }

  lemma {:induction false} FoundOnceEach(a: Utxo, b: Utxo)
    requires a.confirmed && b.confirmed && Key(a) != Key(b)
    ensures Confirmed([a, b]) == [a, b] && Collect([a, b]) == [a, b]
  {
    assert [a, b][1..] == [b] && [b][1..] == [] && Confirmed([b]) == [b];
    assert [a, b][..1] == [a] && [a][..0] == [];
    assert Collect([a]) == Put([], a) == [a];
    assert Collect([a, b]) == Put([a], b);
  }

  lemma {:induction false} TwoSorted(a: Utxo, b: Utxo)
    requires a.value >= b.value
    ensures Sorted([a, b]) == [a, b]
  {
    assert [a, b][..1] == [a] && [a][..0] == [];
    assert Sorted([a]) == Insert([], a) == [a];
    assert Insert([a], b) == [a] + Insert([a][1..], b);
    assert [a][1..] == [] && Insert([], b) == [b];
  }

  lemma {:induction false} TwoTotals(a: Utxo, b: Utxo)
    ensures [a, b][..1] == [a] && [a, b][..2] == [a, b]
    ensures Total([a]) == a.value && Total([a, b]) == a.value + b.value
  {
    assert [a, b][1..] == [b] && [b][1..] == [] && [a][1..] == [];
    assert Total([b]) == b.value;
  }

  lemma {:induction false} BothCover(a: Utxo, b: Utxo, both: seq<Utxo>, amount: nat, fee: nat -> nat)
    requires both == [a, b] && a.value < amount + fee(1) && a.value + b.value >= amount + fee(2)
    ensures FewestCover(both, both, amount, fee)
  {
    TwoTotals(a, b);
    assert both[..2] == both && both[..1] == [a];
  }

  lemma {:induction false} BothPay(both: seq<Utxo>, amount: nat, fee: nat -> nat)
    requires |both| == 2 && Total(both) >= amount + fee(2)
    ensures CanPay(both, amount, fee)
  {
    assert Pays(both, both, amount, fee);
  }

  lemma {:induction false} BothAreSelection(both: seq<Utxo>, s: Selection, amount: nat, fee: nat -> nat, dust: nat)
    requires |both| == 2 && Distinct(both) && both[0].confirmed && both[1].confirmed
    requires s.selected == both && s.fee == fee(2) && Total(both) == amount + fee(2) + s.change && s.change > dust
    ensures IsSelection(s, both, amount, fee, dust)
  {
  }

  lemma {:induction false} KeepsChange(total: nat, amount: nat, n: nat, fee: nat -> nat, change: nat, dust: nat)
    requires total == amount + fee(n) + change && change > dust
    ensures FeeAndChange(total, amount, n, fee, dust) == (fee(n), change)
  {
  }

  /** Two coins that pay together what the larger does not pay alone are both selected. */
  lemma {:induction false} BothSelected(a: Utxo, b: Utxo, both: seq<Utxo>, s: Selection, amount: nat, fee: nat -> nat,
      dust: nat)
    requires both == [a, b] && Distinct(both) && a.confirmed && b.confirmed && a.value >= b.value
    requires a.value < amount + fee(1) && a.value + b.value == amount + fee(2) + s.change && s.change > dust
    requires s.selected == both && s.fee == fee(2)
    ensures CanPay(Collect(Confirmed(both)), amount, fee)
    ensures IsLargestFirst(s, both, amount, fee, dust) && IsSelection(s, both, amount, fee, dust)
  {
    assert Key(both[0]) != Key(both[1]);
    FoundOnceEach(a, b);
    TwoSorted(a, b);
    TwoTotals(a, b);
    BothCover(a, b, both, amount, fee);
    BothPay(both, amount, fee);
    BothAreSelection(both, s, amount, fee, dust);
    KeepsChange(Total(both), amount, 2, fee, s.change, dust);
  }

  lemma {:induction false} OneOfTwo(a: Utxo, b: Utxo, amount: nat, fee: nat -> nat)
    requires a.value >= amount + fee(1)
    ensures CanPay([a, b], amount, fee)
  {
    assert [a][1..] == [] && Total([a]) == a.value;
    assert [a, b] == [a] + [b];
    assert Pays([a, b], [a], amount, fee);
  }

  lemma {:induction false} MaxOfTwo(a: Utxo, b: Utxo, fee: nat -> nat)
    requires Confirmed([a, b]) == [a, b]
    ensures MaxSendable([a, b], fee) == if a.value + b.value > fee(2) then a.value + b.value - fee(2) else 0
  {
    assert [a, b][1..] == [b] && [b][1..] == [];
    assert Total([b]) == b.value && Total([a, b]) == a.value + Total([b]);
  }

  /** A coin worth less than its bytes hides some of what can be sent. */
  lemma {:induction false} SmallCoinHidesMoney()
    ensures
      var coins := [Coin("a", 1000), Coin("b", 1)];
      MaxSendable(coins, FeeAt(1, 1)) < 774 && CanPay(Collect(Confirmed(coins)), 774, FeeAt(1, 1))
  {
    var a, b := Coin("a", 1000), Coin("b", 1);
    KeyIff("a", 0, "b", 0);
    assert Key(a) == KeyOf("a", 0) && Key(b) == KeyOf("b", 0) && "a" != "b" by { assert "a"[0] != "b"[0]; }
    FoundOnceEach(a, b);
    MaxOfTwo(a, b, FeeAt(1, 1));
    OneOfTwo(a, b, 774, FeeAt(1, 1));
  }

  lemma {:induction false} FoundTwice(a: Utxo)
    requires a.confirmed
    ensures Confirmed([a, a]) == [a, a] && Collect([a, a]) == [a]
  {
    assert [a, a][1..] == [a] && [a][1..] == [] && Confirmed([a]) == [a];
    assert [a, a][..1] == [a] && [a][..0] == [];
    assert Collect([a]) == Put([], a) == [a];
  }

  lemma {:induction false} OneCoin(a: Utxo, amount: nat, fee: nat -> nat)
    requires CanPay([a], amount, fee)
    ensures a.value >= amount + fee(1)
  {
    var k := CanPayLargest([a], [a], amount, fee);
    assert [a][..1] == [a] && [a][1..] == [] && Total([a]) == a.value;
  }

  lemma {:induction false} TwoAlike(a: Utxo, fee: nat -> nat)
    requires a.confirmed && 2 * a.value > fee(2)
    ensures MaxSendable([a, a], fee) == 2 * a.value - fee(2)
  {
    FoundTwice(a);
    assert [a, a][1..] == [a] && [a][1..] == [];
    assert Total([a]) == a.value;
    assert Total([a, a]) == a.value + Total([a]);
  }

  /** A coin that was discovered twice is counted twice. */
  lemma {:induction false} RepeatedCoinInflates()
    ensures
      var coins := [Coin("a", 1000), Coin("a", 1000)];
      MaxSendable(coins, FeeAt(1, 1)) > 1000 && !CanPay(Collect(Confirmed(coins)), 1000, FeeAt(1, 1))
  {
    var a := Coin("a", 1000);
    FoundTwice(a);
    TwoAlike(a, FeeAt(1, 1));
    if CanPay([a], 1000, FeeAt(1, 1)) {
      OneCoin(a, 1000, FeeAt(1, 1));
    }
  }
}
