/** Building a transaction from the first coins that cover it, and never spending a coin twice. */
module CoinSelection {
  import opened Bitcoin

  datatype Coin = Coin(outpoint: OutPoint, value: nat)

  const MAX_U64: nat := 0xFFFF_FFFF_FFFF_FFFF

  // Change below this value is left to the fee.
  const DUST_THRESHOLD: nat := 10_000

  const SEND_FEES: nat := 10_000

  function Sum(coins: seq<Coin>): nat {
    if coins == [] then 0 else coins[0].value + Sum(coins[1..])
  }

  function Outpoints(coins: seq<Coin>): seq<OutPoint> {
    seq(|coins|, i requires 0 <= i < |coins| => coins[i].outpoint)
  }

  // The inputs, the amount paid to the destination, and the change, if any.
  datatype Built = Built(inputs: seq<OutPoint>, paid: nat, change: Option<nat>) {
    function OutputSum(): nat {
      paid + if change.Some? then change.value else 0
    }
  }

  // `Panic` is an arithmetic overflow.
  datatype Outcome = Success(tx: Built) | InsufficientBalance | Panic

  // ---- Selection ----

  // The shortest prefix that covers the target, or all coins.
  function Selected(coins: seq<Coin>, target: nat): seq<Coin> {
    if coins == [] then []
    else if target <= coins[0].value then [coins[0]]
    else [coins[0]] + Selected(coins[1..], target - coins[0].value)
  }

  function Transfer(coins: seq<Coin>, amount: nat, fees: nat): Outcome {
    var total := Sum(Selected(coins, amount + fees));
    if (coins != [] && MAX_U64 < amount + fees) || MAX_U64 < total then Panic
    else if total < amount then InsufficientBalance
    else if total < amount + fees then Panic
    else
      var remaining := total - amount - fees;
      Success(Built(Outpoints(Selected(coins, amount + fees)), amount,
                    if DUST_THRESHOLD <= remaining then Some(remaining) else None))
  }

  lemma {:induction false} SumSnoc(coins: seq<Coin>, n: nat)
    requires n < |coins|
    ensures Sum(coins[..n + 1]) == Sum(coins[..n]) + coins[n].value
  {
    if n == 0 {
      assert coins[..1] == [coins[0]] && coins[..1][1..] == [] && coins[..0] == [];
    } else {
      assert coins[..n + 1][1..] == coins[1..][..n] && coins[..n][1..] == coins[1..][..n - 1];
      SumSnoc(coins[1..], n - 1);
    }
  }

  // The selection is the shortest covering prefix; all coins if none covers.
  lemma {:induction false} SelectedIsShortest(coins: seq<Coin>, target: nat)
    ensures var s := Selected(coins, target);
            && s <= coins && (coins != [] ==> s != [])
            && (Sum(s) < target ==> s == coins)
            && (forall n | 1 <= n < |s| :: Sum(coins[..n]) < target)
            && (target <= Sum(coins) ==> target <= Sum(s))
            && Sum(s) <= Sum(coins)
  {
    if coins == [] {
    } else {
      var s := Selected(coins, target);
      if target <= coins[0].value {
        assert s[1..] == [];
        assert s == coins[..1];
      } else {
        var rest := Selected(coins[1..], target - coins[0].value);
        SelectedIsShortest(coins[1..], target - coins[0].value);
        assert s[1..] == rest;
        assert coins == [coins[0]] + coins[1..];
        assert s == [coins[0]] + coins[1..][..|rest|] == coins[..|s|];
        forall n | 1 <= n < |s| ensures Sum(coins[..n]) < target {
          assert coins[..n][1..] == coins[1..][..n - 1];
          if n == 1 {
            assert coins[1..][..0] == [];
          }
        }
      }
    }
  }

  // The first `k` coins are taken, and the rest of the selection is still to come.
  ghost predicate Selecting(coins: seq<Coin>, k: nat, taken: seq<Coin>, target: nat) {
    && k <= |coins| && Sum(taken) <= target
    && Selected(coins, target) == taken + Selected(coins[k..], target - Sum(taken))
  }

  lemma {:induction false} SelectNone(coins: seq<Coin>, target: nat)
    ensures Selecting(coins, 0, [], target)
  {
    assert coins[0..] == coins;
    assert [] + Selected(coins, target) == Selected(coins, target);
  }

  // Taking one more coin completes the selection, or it goes on.
  lemma {:induction false} SelectMore(coins: seq<Coin>, k: nat, taken: seq<Coin>, target: nat)
    requires k < |coins| && Selecting(coins, k, taken, target)
    ensures var more := taken + [coins[k]];
            && Sum(more) == Sum(taken) + coins[k].value && Sum(more) <= Sum(Selected(coins, target))
            && if target <= Sum(more) then Selected(coins, target) == more else Selecting(coins, k + 1, more, target)
  {
    var more, selected := taken + [coins[k]], Selected(coins, target);
    var rest := Selected(coins[k..], target - Sum(taken));
    assert coins[k..][0] == coins[k] && coins[k..][1..] == coins[k + 1..];
    SumAdd(taken, coins[k]);
    assert selected[..|more|] == more && selected == more + rest[1..];
    SumPrefix(more, selected);
  }

  lemma {:induction false} SumPrefix(part: seq<Coin>, coins: seq<Coin>)
    requires part <= coins
    ensures Sum(part) <= Sum(coins)
  {
    if part == [] {
    } else {
      SumPrefix(part[1..], coins[1..]);
    }
  }

  /** Builds a transaction that pays an amount. */
  method BuildTransaction(coins: seq<Coin>, amount: nat, fees: nat) returns (outcome: Outcome)
    ensures outcome == Transfer(coins, amount, fees)
  {
    ghost var target := amount + fees;
    var toSpend: seq<Coin> := [];
    var totalSpent: nat := 0;
    var k := 0;
    SelectNone(coins, target);
    while k < |coins|
      invariant Selecting(coins, k, toSpend, target) && totalSpent == Sum(toSpend) <= MAX_U64
      invariant 0 < k ==> target <= MAX_U64
    {
      SelectMore(coins, k, toSpend, target);
      totalSpent := totalSpent + coins[k].value;
      if MAX_U64 < totalSpent {
        return Panic;
      }
      toSpend := toSpend + [coins[k]];
      k := k + 1;
      if MAX_U64 < amount + fees {
        return Panic;
      }
      if totalSpent >= amount + fees {
        break;
      }
    }
    assert toSpend == Selected(coins, target);
    if totalSpent < amount {
      return InsufficientBalance;
    }
    if totalSpent < amount + fees {
      return Panic;
    }
    var remaining := totalSpent - amount - fees;
    var change := None;
    if remaining >= DUST_THRESHOLD {
      change := Some(remaining);
    }
    outcome := Success(Built(Outpoints(toSpend), amount, change));
  }

  lemma {:induction false} SumAdd(coins: seq<Coin>, c: Coin)
    ensures Sum(coins + [c]) == Sum(coins) + c.value
  {
    SumSnoc(coins + [c], |coins|);
    assert (coins + [c])[..|coins|] == coins && (coins + [c])[..|coins| + 1] == coins + [c];
  }

  // When the coins cover amount and fees without overflow, the inputs are the shortest covering prefix, and what
  // goes in comes out again as amount, change and fee; the fee paid is the one asked for, plus
  // less than the dust threshold.
  lemma {:induction false} TransferConserves(coins: seq<Coin>, amount: nat, fees: nat)
    requires amount + fees <= MAX_U64 && amount + fees <= Sum(coins)
    requires Sum(Selected(coins, amount + fees)) <= MAX_U64
    ensures var o := Transfer(coins, amount, fees);
            var s := Selected(coins, amount + fees);
            && o.Success? && o.tx.inputs == Outpoints(s) && s <= coins
            && (forall n | 1 <= n < |s| :: Sum(coins[..n]) < amount + fees)
            && o.tx.paid == amount
            && o.tx.OutputSum() + fees <= Sum(s) < o.tx.OutputSum() + fees + DUST_THRESHOLD
            && (o.tx.change.Some? ==> DUST_THRESHOLD <= o.tx.change.value && o.tx.OutputSum() + fees == Sum(s))
  {
    SelectedIsShortest(coins, amount + fees);
  }

  // An overflow: of amount and fees, which are added once there is a coin, or of the selected
  // coins.
  predicate Overflows(coins: seq<Coin>, amount: nat, fees: nat) {
    (coins != [] && MAX_U64 < amount + fees) || MAX_U64 < Sum(Selected(coins, amount + fees))
  }

  // Without overflow, a transaction is built if and only if the coins cover amount and fees;
  // between the two the subtraction underflows instead of reporting an insufficient balance.
  lemma {:induction false} WhenTransferSucceeds(coins: seq<Coin>, amount: nat, fees: nat)
    ensures Transfer(coins, amount, fees).Success? <==> !Overflows(coins, amount, fees) && amount + fees <= Sum(coins)
    ensures Transfer(coins, amount, fees).InsufficientBalance? <==> !Overflows(coins, amount, fees) && Sum(coins) < amount
    ensures Transfer(coins, amount, fees).Panic? <==> Overflows(coins, amount, fees) || amount <= Sum(coins) < amount + fees
  {
    SelectedIsShortest(coins, amount + fees);
  }

  // ---- Sending ----

  function Unspent(coins: seq<Coin>, spent: set<OutPoint>): seq<Coin> {
    if coins == [] then []
    else if coins[0].outpoint in spent then Unspent(coins[1..], spent)
    else [coins[0]] + Unspent(coins[1..], spent)
  }

  // What one call sends, if it does not trap.
  function SendStep(spent: set<OutPoint>, coins: seq<Coin>, amount: nat): Option<Built> {
    if amount <= SEND_FEES then None
    else
      match Transfer(Unspent(coins, spent), amount, SEND_FEES)
      case Success(tx) => Some(tx)
      case _ => None
  }

  lemma {:induction false} UnspentWithin(coins: seq<Coin>, spent: set<OutPoint>)
    ensures Sum(Unspent(coins, spent)) <= Sum(coins)
    ensures forall c | c in Unspent(coins, spent) :: c in coins && c.outpoint !in spent
  {
    if coins == [] {
    } else {
      UnspentWithin(coins[1..], spent);
    }
  }

  // The filter keeps exactly the coins outside the cache, each as often as it was offered, and in
  // order: at the positions `at`.
  lemma {:induction false} UnspentInOrder(coins: seq<Coin>, spent: set<OutPoint>) returns (at: seq<nat>)
    ensures |at| == |Unspent(coins, spent)|
    ensures forall i | 0 <= i < |at| :: at[i] < |coins| && Unspent(coins, spent)[i] == coins[at[i]]
    ensures forall i, j | 0 <= i < j < |at| :: at[i] < at[j]
    ensures forall k: nat | k < |coins| :: k in at <==> coins[k].outpoint !in spent
  {
    if coins == [] {
      at := [];
    } else {
      var n := |coins| - 1;
      at := UnspentInOrder(coins[..n], spent);
      UnspentLast(coins, spent);
      if coins[n].outpoint !in spent {
        at := at + [n];
      }
    }
  }

  lemma {:induction false} UnspentLast(coins: seq<Coin>, spent: set<OutPoint>)
    requires coins != []
    ensures var n := |coins| - 1;
            Unspent(coins, spent) == Unspent(coins[..n], spent) + if coins[n].outpoint in spent then [] else [coins[n]]
  {
    var n := |coins| - 1;
    assert coins == coins[..n] + [coins[n]];
    UnspentAppend(coins[..n], [coins[n]], spent);
    assert [coins[n]][1..] == [];
  }

  lemma {:induction false} UnspentCount(coins: seq<Coin>, spent: set<OutPoint>, c: Coin)
    ensures multiset(Unspent(coins, spent))[c] == if c.outpoint in spent then 0 else multiset(coins)[c]
  {
    if coins == [] {
    } else {
      UnspentCount(coins[1..], spent, c);
      assert coins == [coins[0]] + coins[1..];
    }
  }

  // What the first coins outside the cache add up to.
  function SumOutside(coins: seq<Coin>, spent: set<OutPoint>): nat {
    if coins == [] then 0
    else
      var n := |coins| - 1;
      SumOutside(coins[..n], spent) + if coins[n].outpoint in spent then 0 else coins[n].value
  }

  lemma {:induction false} UnspentAppend(a: seq<Coin>, b: seq<Coin>, spent: set<OutPoint>)
    ensures Unspent(a + b, spent) == Unspent(a, spent) + Unspent(b, spent)
  {
    if a == [] {
      assert a + b == b;
    } else {
      assert (a + b)[1..] == a[1..] + b;
      UnspentAppend(a[1..], b, spent);
    }
  }

  lemma {:induction false} UnspentSum(coins: seq<Coin>, spent: set<OutPoint>)
    ensures Sum(Unspent(coins, spent)) == SumOutside(coins, spent)
  {
    if coins == [] {
    } else {
      var n := |coins| - 1;
      UnspentSum(coins[..n], spent);
      UnspentLast(coins, spent);
      if coins[n].outpoint in spent {
        assert Unspent(coins, spent) == Unspent(coins[..n], spent);
      } else {
        SumAdd(Unspent(coins[..n], spent), coins[n]);
      }
    }
  }

  // Every prefix of the filtered coins is the filter of a prefix.
  lemma {:induction false} UnspentPrefix(coins: seq<Coin>, spent: set<OutPoint>, k: nat) returns (n: nat)
    requires k <= |Unspent(coins, spent)|
    ensures n <= |coins| && Unspent(coins[..n], spent) == Unspent(coins, spent)[..k]
  {
    if k == |Unspent(coins, spent)| {
      n := |coins|;
      assert coins[..n] == coins;
    } else {
      var m := |coins| - 1;
      UnspentLast(coins, spent);
      n := UnspentPrefix(coins[..m], spent, k);
      assert coins[..m][..n] == coins[..n];
    }
  }

  // Some number of the first coins, without those in the cache, covers the target and fits in 64
  // bits.
  ghost predicate Coverable(coins: seq<Coin>, spent: set<OutPoint>, target: nat) {
    exists n: nat :: n <= |coins| && target <= SumOutside(coins[..n], spent) <= MAX_U64
  }

  lemma {:induction false} CoverableIff(coins: seq<Coin>, spent: set<OutPoint>, target: nat)
    requires 0 < target
    ensures var unspent := Unspent(coins, spent);
            Coverable(coins, spent, target) <==> target <= Sum(unspent) && Sum(Selected(unspent, target)) <= MAX_U64
  {
    var unspent := Unspent(coins, spent);
    var s := Selected(unspent, target);
    SelectedIsShortest(unspent, target);
    if target <= Sum(unspent) && Sum(s) <= MAX_U64 {
      var n := UnspentPrefix(coins, spent, |s|);
      UnspentSum(coins[..n], spent);
      assert s == unspent[..|s|];
    }
    if n: nat :| n <= |coins| && target <= SumOutside(coins[..n], spent) <= MAX_U64 {
      CoveringPrefix(coins, spent, target, n);
    }
  }

  lemma {:induction false} CoveringPrefix(coins: seq<Coin>, spent: set<OutPoint>, target: nat, n: nat)
    requires n <= |coins| && 0 < target <= SumOutside(coins[..n], spent) <= MAX_U64
    ensures var unspent := Unspent(coins, spent);
            target <= Sum(unspent) && Sum(Selected(unspent, target)) <= MAX_U64
  {
    var unspent, part := Unspent(coins, spent), Unspent(coins[..n], spent);
    assert coins == coins[..n] + coins[n..];
    UnspentAppend(coins[..n], coins[n..], spent);
    UnspentSum(coins[..n], spent);
    SumPrefix(part, unspent);
    SelectedWithin(unspent, target, part);
    SumPrefix(Selected(unspent, target), part);
  }

  // The selection does not go beyond a prefix that covers the target.
  lemma {:induction false} SelectedWithin(coins: seq<Coin>, target: nat, part: seq<Coin>)
    requires part <= coins && 0 < target <= Sum(part)
    ensures Selected(coins, target) <= part
  {
    if target <= coins[0].value {
    } else {
      SelectedWithin(coins[1..], target - coins[0].value, part[1..]);
      assert part == [part[0]] + part[1..];
    }
  }

  // A call sends if and only if the amount is above the fees, and some number of the first coins,
  // without those in the cache, covers both and fits in 64 bits.
  lemma {:induction false} SendSucceeds(spent: set<OutPoint>, coins: seq<Coin>, amount: nat)
    ensures SendStep(spent, coins, amount).Some? <==> 10_000 < amount && Coverable(coins, spent, amount + 10_000)
  {
    var unspent := Unspent(coins, spent);
    CoverableIff(coins, spent, amount + 10_000);
    WhenTransferSucceeds(unspent, amount, 10_000);
    SelectedIsShortest(unspent, amount + 10_000);
  }

  lemma {:induction false} UnspentOfPrefix(coins: seq<Coin>, spent: set<OutPoint>, n: nat)
    requires n <= |coins|
    ensures Unspent(coins[..n], spent) <= Unspent(coins, spent)
    ensures Sum(Unspent(coins[..n], spent)) == SumOutside(coins[..n], spent)
  {
    assert coins == coins[..n] + coins[n..];
    UnspentAppend(coins[..n], coins[n..], spent);
    UnspentSum(coins[..n], spent);
  }

  // The fewest first coins that cover the target.
  lemma {:induction false} FewestCovering(coins: seq<Coin>, spent: set<OutPoint>, target: nat) returns (n: nat)
    requires 0 < target <= SumOutside(coins, spent)
    ensures 0 < n <= |coins| && target <= SumOutside(coins[..n], spent)
    ensures forall m: nat | m < n :: SumOutside(coins[..m], spent) < target
  {
    var k := |coins| - 1;
    if target <= SumOutside(coins[..k], spent) {
      n := FewestCovering(coins[..k], spent, target);
      assert forall m: nat | m <= n :: coins[..k][..m] == coins[..m];
    } else {
      n := |coins|;
      assert coins[..n] == coins;
      forall m: nat | m < n ensures SumOutside(coins[..m], spent) < target {
        UnspentOfPrefix(coins[..k], spent, m);
        UnspentSum(coins[..k], spent);
        assert coins[..k][..m] == coins[..m];
        SumPrefix(Unspent(coins[..m], spent), Unspent(coins[..k], spent));
      }
    }
  }

  // Filtering and then selecting takes the coins outside the cache from those.
  lemma {:induction false} SelectedAreFirst(coins: seq<Coin>, spent: set<OutPoint>, target: nat, n: nat)
    requires 0 < target && 0 < n <= |coins| && target <= SumOutside(coins[..n], spent)
    requires SumOutside(coins[..n - 1], spent) < target
    ensures Selected(Unspent(coins, spent), target) == Unspent(coins[..n], spent)
  {
    var unspent := Unspent(coins, spent);
    var s, part, less := Selected(unspent, target), Unspent(coins[..n], spent), Unspent(coins[..n - 1], spent);
    UnspentOfPrefix(coins, spent, n);
    UnspentOfPrefix(coins, spent, n - 1);
    SumPrefix(part, unspent);
    SelectedIsShortest(unspent, target);
    SelectedWithin(unspent, target, part);
    OneMoreCoin(coins, spent, n);
    if |s| <= |less| {
      assert s == less[..|s|];
      SumPrefix(s, less);
    }
  }

  lemma {:induction false} OneMoreCoin(coins: seq<Coin>, spent: set<OutPoint>, n: nat)
    requires 0 < n <= |coins|
    ensures |Unspent(coins[..n], spent)| <= |Unspent(coins[..n - 1], spent)| + 1
  {
    UnspentLast(coins[..n], spent);
    assert coins[..n][..n - 1] == coins[..n - 1];
  }

  // It sends the amount from the fewest such coins, without those in the cache.
  lemma {:induction false} SendSpendsFirst(spent: set<OutPoint>, coins: seq<Coin>, amount: nat) returns (n: nat)
    requires SendStep(spent, coins, amount).Some?
    ensures n <= |coins| && amount + 10_000 <= SumOutside(coins[..n], spent)
    ensures forall m: nat | m < n :: SumOutside(coins[..m], spent) < amount + 10_000
    ensures var tx := SendStep(spent, coins, amount).value;
            && tx.inputs == Outpoints(Unspent(coins[..n], spent)) && tx.paid == amount
            && tx.OutputSum() + 10_000 <= SumOutside(coins[..n], spent) < tx.OutputSum() + 20_000
  {
    var unspent := Unspent(coins, spent);
    WhenTransferSucceeds(unspent, amount, 10_000);
    TransferConserves(unspent, amount, 10_000);
    UnspentSum(coins, spent);
    n := FewestCovering(coins, spent, amount + 10_000);
    SelectedAreFirst(coins, spent, amount + 10_000, n);
    UnspentSum(coins[..n], spent);
  }

  class Wallet {
    // A cache of spent outpoints.
    var spentTxos: set<OutPoint>

    constructor ()
      ensures spentTxos == {}
    {
      spentTxos := {};
    }

    /** Sends an amount from the given coins; `None` is a trap, which changes nothing. */
    method Send(coins: seq<Coin>, amount: nat) returns (sent: Option<Built>)
      modifies this
      ensures sent == SendStep(old(spentTxos), coins, amount)
      ensures spentTxos == old(spentTxos) + if sent.Some? then (set op | op in sent.value.inputs) else {}
    {
      if amount <= SEND_FEES {
        return None;
      }
      var outcome := BuildTransaction(Unspent(coins, spentTxos), amount, SEND_FEES);
      if !outcome.Success? {
        return None;
      }
      var inputs := outcome.tx.inputs;
      for i := 0 to |inputs|
        invariant spentTxos == old(spentTxos) + set op | op in inputs[..i]
      {
        assert inputs[..i + 1] == inputs[..i] + [inputs[i]];
        spentTxos := spentTxos + {inputs[i]};
      }
      assert inputs[..|inputs|] == inputs;
      sent := Some(outcome.tx);
    }
  }

  // ---- Runs ----

  datatype Request = Request(coins: seq<Coin>, amount: nat)

  // The transactions that a run of calls sends, in order; those that trap send none.
  ghost function SentBy(requests: seq<Request>): seq<Built> {
    if requests == [] then []
    else
      var before := SentBy(requests[..|requests| - 1]);
      var last := requests[|requests| - 1];
      before + match SendStep(InputsOf(before), last.coins, last.amount)
               case Some(tx) => [tx]
               case None => []
  }

  // Their inputs: what the cache holds.
  ghost function InputsOf(txs: seq<Built>): set<OutPoint> {
    set i, op | 0 <= i < |txs| && op in txs[i].inputs :: op
  }

  // One more transaction adds its inputs to the cache, as `Wallet.Send` does.
  lemma {:induction false} CacheHoldsInputs(txs: seq<Built>, tx: Built)
    ensures InputsOf(txs + [tx]) == InputsOf(txs) + set op | op in tx.inputs
  {
    var longer := txs + [tx];
    forall op | op in InputsOf(txs) ensures op in InputsOf(longer) {
      var i :| 0 <= i < |txs| && op in txs[i].inputs;
      assert longer[i] == txs[i];
    }
    forall op | op in tx.inputs ensures op in InputsOf(longer) {
      assert longer[|txs|] == tx;
    }
  }

  lemma {:induction false} SendUsesFresh(spent: set<OutPoint>, coins: seq<Coin>, amount: nat)
    requires SendStep(spent, coins, amount).Some?
    ensures forall op | op in SendStep(spent, coins, amount).value.inputs :: op !in spent
  {
    var unspent := Unspent(coins, spent);
    var s := Selected(unspent, amount + SEND_FEES);
    UnspentWithin(coins, spent);
    SelectedIsShortest(unspent, amount + SEND_FEES);
    forall op | op in Outpoints(s) ensures op !in spent {
      var i :| 0 <= i < |s| && s[i].outpoint == op;
      assert s[i] == unspent[i] && unspent[i] in unspent;
    }
  }

  // No outpoint is an input of two transactions of a run.
  lemma {:induction false} NeverSpendsTwice(requests: seq<Request>, i: nat, j: nat, op: OutPoint)
    requires i < j < |SentBy(requests)|
    requires op in SentBy(requests)[i].inputs
    ensures op !in SentBy(requests)[j].inputs
  {
    var before := SentBy(requests[..|requests| - 1]);
    var last := requests[|requests| - 1];
    if j < |before| {
      NeverSpendsTwice(requests[..|requests| - 1], i, j, op);
    } else {
      SendUsesFresh(InputsOf(before), last.coins, last.amount);
      assert op in InputsOf(before);
    }
  }
}
