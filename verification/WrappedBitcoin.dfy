/** The wrapped-bitcoin ledger. Each message, together with the messages it sends to its own
    actor, is one atomic step; a trap undoes the whole step. */
module WrappedBitcoin {
  import opened Pools

  type Principal(==, !new)

  const MAX_NAT64: nat := 0xFFFF_FFFF_FFFF_FFFF
  const FEE: nat := 10000

  // ---- The ledger as a value ----

  type Balances = map<Principal, nat>

  function BalanceOf(balances: Balances, who: Principal): nat {
    if who in balances then balances[who] else 0
  }

  ghost function SumBalances(balances: Balances): nat
    decreases |balances|
  {
    if balances == map[] then 0
    else
      var who :| who in balances;
      balances[who] + SumBalances(balances - {who})
  }

  lemma {:induction false} SumRemove(balances: Balances, who: Principal)
    requires who in balances
    ensures SumBalances(balances) == balances[who] + SumBalances(balances - {who})
    decreases |balances|
  {
    var first :| first in balances && SumBalances(balances) == balances[first] + SumBalances(balances - {first});
    if first != who {
      SumRemove(balances - {first}, who);
      SumRemove(balances - {who}, first);
      assert balances - {first} - {who} == balances - {who} - {first};
    }
  }

  // Changing one balance changes the sum by the difference.
  lemma {:induction false} SumUpdate(balances: Balances, who: Principal, value: nat)
    ensures SumBalances(balances[who := value]) + BalanceOf(balances, who) == SumBalances(balances) + value
  {
    SumRemove(balances[who := value], who);
    if who in balances {
      SumRemove(balances, who);
      assert balances[who := value] - {who} == balances - {who};
    } else {
      assert balances[who := value] - {who} == balances;
    }
  }

  lemma {:induction false} BalanceWithinSum(balances: Balances, who: Principal)
    ensures BalanceOf(balances, who) <= SumBalances(balances)
  {
    if who in balances {
      SumRemove(balances, who);
    }
  }

  datatype Ledger = Ledger(balances: Balances, invoices: map<Principal, Account>, pool: Pool, supply: nat) {
    // Balances, supply and pool agree; the pool is in order; and nothing exceeds 64 bits.
    ghost predicate Sound() {
      && SumBalances(balances) == supply == Sum(pool)
      && Descending(pool) && Positive(pool) && supply <= MAX_NAT64
    }
  }

  const EMPTY := Ledger(map[], map[], [], 0)

  datatype Message =
    | OpenInvoice(caller: Principal, account: Account)
    | CloseInvoice(caller: Principal, invoiceBalance: nat)
    | Send(caller: Principal, to: Principal, value: nat)
    | Unwrap(caller: Principal, amount: nat)

  datatype Outcome = Trap | Done(ledger: Ledger, requests: Pool)

  // One message: the new ledger and the amounts asked of the accounts.
  function Step(l: Ledger, m: Message): Outcome {
    match m
    case OpenInvoice(caller, account) =>
      Done(if caller in l.invoices then l else l.(invoices := l.invoices[caller := account]), [])
    case CloseInvoice(caller, invoiceBalance) => CloseStep(l, caller, invoiceBalance)
    case Send(caller, to, value) => SendStep(l, caller, to, value)
    case Unwrap(caller, amount) => UnwrapStep(l, caller, amount)
  }

  // The invoice's deposit joins the pool and is minted to the caller.
  function CloseStep(l: Ledger, caller: Principal, invoiceBalance: nat): Outcome {
    var deposit := if caller in l.invoices then invoiceBalance else 0;
    if BalanceOf(l.balances, caller) + deposit > MAX_NAT64 || l.supply + deposit > MAX_NAT64 then Trap
    else
      Done(Ledger(l.balances[caller := BalanceOf(l.balances, caller) + deposit],
                  l.invoices - {caller},
                  if 0 < deposit then SortDescending([(l.invoices[caller], deposit)] + l.pool) else l.pool,
                  l.supply + deposit), [])
  }

  function SendStep(l: Ledger, caller: Principal, to: Principal, value: nat): Outcome {
    var from := BalanceOf(l.balances, caller);
    var target := BalanceOf(l.balances, to);
    if from < value || target + value > MAX_NAT64 then Trap
    else Done(l.(balances := l.balances[caller := from - value][to := target + value]), [])
  }

  // Every piece pays its fee, and the supply covers them all.
  predicate Affordable(pieces: Pool, supply: nat) {
    AllAtLeast(pieces, FEE) && Sum(pieces) <= supply
  }

  function UnwrapStep(l: Ledger, caller: Principal, amount: nat): Outcome {
    var (pieces, rest) := DrawDown(l.pool, amount);
    if BalanceOf(l.balances, caller) < amount then Done(l, [])
    else if !Affordable(pieces, l.supply) then Trap
    else
      Done(Ledger(l.balances[caller := BalanceOf(l.balances, caller) - amount], l.invoices, rest, l.supply - Sum(pieces)),
           LessFee(pieces, FEE))
  }

  // ---- Conservation ----

  lemma {:induction false} CloseKeepsSound(l: Ledger, caller: Principal, invoiceBalance: nat)
    requires l.Sound()
    ensures var o := CloseStep(l, caller, invoiceBalance); o.Done? ==> o.ledger.Sound()
  {
    var deposit := if caller in l.invoices then invoiceBalance else 0;
    SumUpdate(l.balances, caller, BalanceOf(l.balances, caller) + deposit);
    if 0 < deposit {
      DepositSorted(l.pool, (l.invoices[caller], deposit));
    }
  }

  lemma {:induction false} DepositSorted(pool: Pool, x: (Account, nat))
    requires Positive(pool) && 0 < x.1
    ensures var sorted := SortDescending([x] + pool);
            Descending(sorted) && Positive(sorted) && Sum(sorted) == x.1 + Sum(pool)
  {
    var all := [x] + pool;
    assert all[1..] == pool;
    SortSorts(all);
    SortKeeps(all);
    SortKeepsPositive(all);
  }

  // Sending keeps the sum of balances if and only if the principals differ or nothing is sent:
  // a transfer to oneself adds its value.
  lemma {:induction false} SendConserves(l: Ledger, caller: Principal, to: Principal, value: nat)
    requires SendStep(l, caller, to, value).Done?
    ensures var after := SendStep(l, caller, to, value).ledger.balances;
            && SumBalances(after) == SumBalances(l.balances) + (if caller == to then value else 0)
            && (SumBalances(after) == SumBalances(l.balances) <==> caller != to || value == 0)
  {
    var from := BalanceOf(l.balances, caller);
    var debited := l.balances[caller := from - value];
    SumUpdate(l.balances, caller, from - value);
    SumUpdate(debited, to, BalanceOf(l.balances, to) + value);
  }

  ghost predicate LastPieceTooSmall(pool: Pool, amount: nat) {
    var pieces := DrawDown(pool, amount).0;
    pieces != [] && pieces[|pieces| - 1].1 < FEE
  }

  // An unwrap of a sound ledger never runs out of pool entries, and keeps it sound. It asks the
  // accounts for the amount less a fee for each entry it draws on, and traps if and only if the
  // last piece, the smallest, is below the fee.
  lemma {:induction false} UnwrapKeepsSound(l: Ledger, caller: Principal, amount: nat)
    requires l.Sound()
    ensures var o := UnwrapStep(l, caller, amount);
            && (o.Done? ==> o.ledger.Sound())
            && (o.Done? && amount <= BalanceOf(l.balances, caller) ==>
                  && BalanceOf(o.ledger.balances, caller) == BalanceOf(l.balances, caller) - amount
                  && o.ledger.supply == l.supply - amount
                  && Sum(o.requests) + FEE * |o.requests| == amount)
            && (o.Trap? <==> amount <= BalanceOf(l.balances, caller) && LastPieceTooSmall(l.pool, amount))
  {
    UnwrapTraps(l, caller, amount);
    UnwrapBurns(l, caller, amount);
    UnwrapPays(l, caller, amount);
  }

  lemma {:induction false} UnwrapBurns(l: Ledger, caller: Principal, amount: nat)
    requires l.Sound()
    ensures var o := UnwrapStep(l, caller, amount); o.Done? ==> o.ledger.Sound()
  {
    DrawDownConserves(l.pool, amount);
    DrawDownKeepsOrder(l.pool, amount);
    BalanceWithinSum(l.balances, caller);
    SumDebit(l.balances, caller, amount);
  }

  lemma {:induction false} SumDebit(balances: Balances, who: Principal, amount: nat)
    ensures amount <= BalanceOf(balances, who) ==>
              SumBalances(balances[who := BalanceOf(balances, who) - amount]) + amount == SumBalances(balances)
  {
    if amount <= BalanceOf(balances, who) {
      SumUpdate(balances, who, BalanceOf(balances, who) - amount);
    }
  }

  lemma {:induction false} UnwrapPays(l: Ledger, caller: Principal, amount: nat)
    requires l.Sound()
    ensures var o := UnwrapStep(l, caller, amount);
            o.Done? && amount <= BalanceOf(l.balances, caller) ==>
              && BalanceOf(o.ledger.balances, caller) == BalanceOf(l.balances, caller) - amount
              && o.ledger.supply == l.supply - amount
              && Sum(o.requests) + FEE * |o.requests| == amount
  {
    var pieces := DrawDown(l.pool, amount).0;
    BalanceWithinSum(l.balances, caller);
    DrawDownConserves(l.pool, amount);
    if AllAtLeast(pieces, FEE) {
      SentInAll(pieces, FEE);
    }
  }

  lemma {:induction false} UnwrapTraps(l: Ledger, caller: Principal, amount: nat)
    requires l.Sound()
    ensures UnwrapStep(l, caller, amount).Trap? <==>
            amount <= BalanceOf(l.balances, caller) && LastPieceTooSmall(l.pool, amount)
  {
    BalanceWithinSum(l.balances, caller);
    DrawDownConserves(l.pool, amount);
    LastPieceDecides(l.pool, amount, FEE);
  }

  // With a balance below the amount nothing happens: nothing is paid out, and nothing is burned.
  lemma {:induction false} ShortUnwrapDoesNothing(l: Ledger, caller: Principal, amount: nat)
    requires BalanceOf(l.balances, caller) < amount
    ensures Step(l, Unwrap(caller, amount)) == Done(l, [])
  {
  }

  // Otherwise only the caller's balance, the supply and the pool change.
  lemma {:induction false} UnwrapTouchesOnly(l: Ledger, caller: Principal, amount: nat)
    requires l.Sound() && amount <= BalanceOf(l.balances, caller) && Step(l, Unwrap(caller, amount)).Done?
    ensures var after := Step(l, Unwrap(caller, amount)).ledger;
            && after.invoices == l.invoices && after.supply == l.supply - amount
            && BalanceOf(after.balances, caller) == BalanceOf(l.balances, caller) - amount
            && forall who | who != caller :: BalanceOf(after.balances, who) == BalanceOf(l.balances, who)
  {
    UnwrapPays(l, caller, amount);
  }

  // The i-th request goes to the i-th account of the pool, and asks for its whole entry less the
  // fee, but for the last, which asks for what is still missing.
  lemma {:induction false} UnwrapAsksHead(l: Ledger, caller: Principal, amount: nat)
    requires l.Sound() && amount <= BalanceOf(l.balances, caller) && Step(l, Unwrap(caller, amount)).Done? && l.pool != []
    ensures AskedFromHead(l.pool, amount, Step(l, Unwrap(caller, amount)).requests)
  {
    BalanceWithinSum(l.balances, caller);
    DrawDownExactly(l.pool, amount);
    LessFeeAsked(l.pool, amount, DrawDown(l.pool, amount).0);
  }

  ghost predicate AskedFromHead(pool: Pool, amount: nat, requests: Pool) {
    var n := |requests|;
    && 0 < n <= |pool|
    && (forall i | 0 <= i < n :: requests[i].0 == pool[i].0)
    && (forall i | 0 <= i < n - 1 :: requests[i].1 + 10_000 == pool[i].1)
    && requests[n - 1].1 + 10_000 == amount - Sum(pool[..n - 1])
  }

  lemma {:induction false} LessFeeAsked(pool: Pool, amount: nat, pieces: Pool)
    requires TakenFromHead(pool, amount, pieces) && AllAtLeast(pieces, FEE)
    ensures AskedFromHead(pool, amount, LessFee(pieces, FEE))
  {
  }

  // The pool keeps the entries that are not drawn on, and what is left of the last one that is.
  lemma {:induction false} UnwrapLeaves(l: Ledger, caller: Principal, amount: nat)
    requires l.Sound() && amount <= BalanceOf(l.balances, caller) && Step(l, Unwrap(caller, amount)).Done? && l.pool != []
    ensures var o := Step(l, Unwrap(caller, amount));
            LeftBehind(l.pool, amount, |o.requests|, o.ledger.pool)
  {
    BalanceWithinSum(l.balances, caller);
    DrawDownExactly(l.pool, amount);
  }

  // A transfer between different principals takes exactly the value from the one and gives it to
  // the other, and touches nothing else. A transfer to oneself adds the value.
  lemma {:induction false} SendMoves(l: Ledger, caller: Principal, to: Principal, value: nat)
    requires Step(l, Send(caller, to, value)).Done?
    ensures var o := Step(l, Send(caller, to, value));
            && (caller != to ==> BalanceOf(o.ledger.balances, caller) + value == BalanceOf(l.balances, caller))
            && BalanceOf(o.ledger.balances, to) == BalanceOf(l.balances, to) + value
            && (forall who | who != caller && who != to :: BalanceOf(o.ledger.balances, who) == BalanceOf(l.balances, who))
            && o.ledger.balances.Keys == l.balances.Keys + {caller, to}
            && o.ledger.invoices == l.invoices && o.ledger.pool == l.pool && o.ledger.supply == l.supply && o.requests == []
  {
  }

  lemma {:induction false} SendTraps(l: Ledger, caller: Principal, to: Principal, value: nat)
    ensures Step(l, Send(caller, to, value)).Trap? <==>
            BalanceOf(l.balances, caller) < value || MAX_NAT64 < BalanceOf(l.balances, to) + value
  {
  }

  // Closing an invoice gives the caller exactly what the invoice holds, if there is one, backs it
  // with the invoice's account, and deletes the invoice; nothing else changes.
  lemma {:induction false} CloseMints(l: Ledger, caller: Principal, invoiceBalance: nat)
    requires Step(l, CloseInvoice(caller, invoiceBalance)).Done?
    ensures var o := Step(l, CloseInvoice(caller, invoiceBalance));
            var gain := if caller in l.invoices then invoiceBalance else 0;
            && BalanceOf(o.ledger.balances, caller) == BalanceOf(l.balances, caller) + gain && o.ledger.supply == l.supply + gain
            && (forall who | who != caller :: BalanceOf(o.ledger.balances, who) == BalanceOf(l.balances, who))
            && caller !in o.ledger.invoices
            && (forall who | who != caller :: who in o.ledger.invoices <==> who in l.invoices)
            && (forall who | who in o.ledger.invoices :: o.ledger.invoices[who] == l.invoices[who])
            && (gain == 0 ==> o.ledger.pool == l.pool)
            && (gain > 0 ==> StablySorted([(l.invoices[caller], gain)] + l.pool, o.ledger.pool))
            && o.requests == []
  {
    if caller in l.invoices && invoiceBalance > 0 {
      SortedStably([(l.invoices[caller], invoiceBalance)] + l.pool);
    }
  }

  lemma {:induction false} CloseTraps(l: Ledger, caller: Principal, invoiceBalance: nat)
    ensures Step(l, CloseInvoice(caller, invoiceBalance)).Trap? <==>
            var gain := if caller in l.invoices then invoiceBalance else 0;
            MAX_NAT64 < BalanceOf(l.balances, caller) + gain || MAX_NAT64 < l.supply + gain
  {
  }

  // Closing again gives nothing, whatever balance is reported.
  lemma {:induction false} CloseAgainMintsNothing(l: Ledger, caller: Principal, first: nat, second: nat)
    requires l.Sound() && Step(l, CloseInvoice(caller, first)).Done?
    ensures var once := Step(l, CloseInvoice(caller, first)).ledger;
            Step(once, CloseInvoice(caller, second)) == Done(once, [])
  {
    var once := Step(l, CloseInvoice(caller, first)).ledger;
    CloseMints(l, caller, first);
    assert once.balances[caller := BalanceOf(once.balances, caller)] == once.balances;
    assert once.invoices - {caller} == once.invoices;
  }

  // An invoice is opened for a caller who has none, and stays the same for one who has.
  lemma {:induction false} OpenKeepsInvoice(l: Ledger, caller: Principal, account: Account)
    ensures var o := Step(l, OpenInvoice(caller, account));
            && o.Done? && caller in o.ledger.invoices && o.requests == []
            && o.ledger.invoices[caller] == (if caller in l.invoices then l.invoices[caller] else account)
            && (forall who | who != caller :: who in o.ledger.invoices <==> who in l.invoices)
            && (forall who | who != caller && who in l.invoices :: o.ledger.invoices[who] == l.invoices[who])
            && o.ledger.balances == l.balances && o.ledger.pool == l.pool && o.ledger.supply == l.supply
  {
  }

  // An unwrap of a sound ledger draws on as few entries as any selection that covers it.
  lemma {:induction false} UnwrapIsOptimal(l: Ledger, caller: Principal, amount: nat, mask: seq<bool>)
    requires l.Sound() && 0 < amount <= BalanceOf(l.balances, caller)
    requires UnwrapStep(l, caller, amount).Done?
    requires |mask| == |l.pool| && amount <= Selected(l.pool, mask)
    ensures 0 < |UnwrapStep(l, caller, amount).requests| <= Pools.Count(mask)
  {
    GreedyDrawIsOptimal(l.pool, amount, mask);
    UnwrapKeepsSound(l, caller, amount);
  }

  // ---- Runs ----

  ghost predicate BetweenOthers(m: Message) {
    m.Send? ==> m.caller != m.to || m.value == 0
  }

  // A message that traps leaves the ledger as it was.
  function Deliver(l: Ledger, m: Message): Ledger {
    var o := Step(l, m);
    if o.Done? then o.ledger else l
  }

  ghost function Run(messages: seq<Message>): Ledger {
    if messages == [] then EMPTY
    else Deliver(Run(messages[..|messages| - 1]), messages[|messages| - 1])
  }

  lemma {:induction false} DeliverKeepsSound(l: Ledger, m: Message)
    requires l.Sound() && BetweenOthers(m)
    ensures Deliver(l, m).Sound()
  {
    match m {
      case OpenInvoice(_, _) =>
      case CloseInvoice(caller, invoiceBalance) => CloseKeepsSound(l, caller, invoiceBalance);
      case Send(caller, to, value) =>
        if Step(l, m).Done? {
          SendConserves(l, caller, to, value);
        }
      case Unwrap(caller, amount) => UnwrapKeepsSound(l, caller, amount);
    }
  }

  // In every run without transfers to oneself, the balances add up to the supply, and so do
  // the backing accounts, which stay in order.
  lemma {:induction false} RunIsSound(messages: seq<Message>)
    requires forall m | m in messages :: BetweenOthers(m)
    ensures Run(messages).Sound()
  {
    if messages == [] {
    } else {
      RunIsSound(messages[..|messages| - 1]);
      DeliverKeepsSound(Run(messages[..|messages| - 1]), messages[|messages| - 1]);
    }
  }

  // ---- What runs pay out ----

  // What a message asks of the accounts, fees included.
  ghost function PaidBy(l: Ledger, m: Message): nat {
    match Step(l, m)
    case Done(_, requests) => Sum(requests) + FEE * |requests|
    case Trap => 0
  }

  // How much the balance of the caller of an unwrap falls.
  ghost function BurnedBy(l: Ledger, m: Message): int {
    match m
    case Unwrap(caller, _) => BalanceOf(l.balances, caller) - BalanceOf(Deliver(l, m).balances, caller)
    case _ => 0
  }

  // How much the balance of the caller who closes an invoice rises.
  ghost function DepositedBy(l: Ledger, m: Message): int {
    match m
    case CloseInvoice(caller, _) => BalanceOf(Deliver(l, m).balances, caller) - BalanceOf(l.balances, caller)
    case _ => 0
  }

  ghost function PaidOut(messages: seq<Message>): nat {
    if messages == [] then 0
    else
      var before := messages[..|messages| - 1];
      PaidOut(before) + PaidBy(Run(before), messages[|messages| - 1])
  }

  ghost function Burned(messages: seq<Message>): int {
    if messages == [] then 0
    else
      var before := messages[..|messages| - 1];
      Burned(before) + BurnedBy(Run(before), messages[|messages| - 1])
  }

  ghost function Deposited(messages: seq<Message>): int {
    if messages == [] then 0
    else
      var before := messages[..|messages| - 1];
      Deposited(before) + DepositedBy(Run(before), messages[|messages| - 1])
  }

  lemma {:induction false} MessagePays(l: Ledger, m: Message)
    requires l.Sound() && BetweenOthers(m)
    ensures PaidBy(l, m) == BurnedBy(l, m)
    ensures Deliver(l, m).supply == l.supply + DepositedBy(l, m) - BurnedBy(l, m)
  {
    match m {
      case OpenInvoice(_, _) =>
      case CloseInvoice(caller, invoiceBalance) =>
        if Step(l, m).Done? {
          CloseMints(l, caller, invoiceBalance);
        }
      case Send(_, _, _) =>
      case Unwrap(caller, amount) =>
        if BalanceOf(l.balances, caller) < amount {
          ShortUnwrapDoesNothing(l, caller, amount);
        } else {
          UnwrapPays(l, caller, amount);
        }
    }
  }

  // Over every run without transfers to oneself, what the accounts are asked for, with a fee for
  // each request, is exactly what balances lost to unwraps; and the supply is what was deposited
  // less what was paid out.
  lemma {:induction false} RunPaysWhatItBurns(messages: seq<Message>)
    requires forall m | m in messages :: BetweenOthers(m)
    ensures PaidOut(messages) == Burned(messages)
    ensures Run(messages).supply + PaidOut(messages) == Deposited(messages)
  {
    if messages == [] {
    } else {
      var before := messages[..|messages| - 1];
      RunPaysWhatItBurns(before);
      RunIsSound(before);
      MessagePays(Run(before), messages[|messages| - 1]);
    }
  }

  /** The actor. `ok` is false where a message traps; its effects are then undone by the
      platform, and nothing is promised about the fields. */
  class WrappedBitcoinActor {
    var accountBalances: Balances
    var invoices: map<Principal, Account>
    var usedAccounts: Pool
    var totalSupply: nat

    ghost function View(): Ledger
      reads this
    {
      Ledger(accountBalances, invoices, usedAccounts, totalSupply)
    }

    constructor ()
      ensures View() == EMPTY && View().Sound()
    {
      accountBalances := map[];
      invoices := map[];
      usedAccounts := [];
      totalSupply := 0;
    }

    /** Opens an invoice for the caller on a new account, or finds the one that is open. */
    method CreateOrViewInvoice(caller: Principal, newAccount: Account) returns (account: Account)
      modifies this`invoices
      ensures Step(old(View()), OpenInvoice(caller, newAccount)) == Done(View(), [])
      ensures caller in invoices && account == invoices[caller]
    {
      if caller !in invoices {
        invoices := invoices[caller := newAccount];
      }
      account := invoices[caller];
    }

    method Mint(to: Principal, value: nat) returns (ok: bool, total: nat)
      modifies this
      ensures ok <==> BalanceOf(old(accountBalances), to) + value <= MAX_NAT64 && old(totalSupply) + value <= MAX_NAT64
      ensures ok ==> total == BalanceOf(old(accountBalances), to) + value
      ensures ok ==> View() == old(View()).(balances := old(accountBalances)[to := total], supply := old(totalSupply) + value)
    {
      var toBalance := BalanceOf(accountBalances, to);
      total := toBalance + value;
      if total > MAX_NAT64 || totalSupply + value > MAX_NAT64 {
        return false, total;
      }
      accountBalances := accountBalances[to := toBalance + value];
      totalSupply := totalSupply + value;
      ok := true;
    }

    method SendTo(caller: Principal, to: Principal, value: nat) returns (ok: bool, receipt: nat)
      modifies this
      ensures ok <==> Step(old(View()), Send(caller, to, value)).Done?
      ensures ok ==> Step(old(View()), Send(caller, to, value)) == Done(View(), []) && receipt == BalanceOf(accountBalances, to)
    {
      receipt := 0;
      var fromBalance := BalanceOf(accountBalances, caller);
      if fromBalance < value {
        return false, receipt;
      }
      var toBalance := BalanceOf(accountBalances, to);
      if toBalance + value > MAX_NAT64 {
        return false, receipt;
      }
      accountBalances := accountBalances[caller := fromBalance - value];
      accountBalances := accountBalances[to := toBalance + value];
      return true, toBalance + value;
    }

    method SortUsedAccounts()
      modifies this`usedAccounts
      ensures StablySorted(old(usedAccounts), usedAccounts)
      ensures usedAccounts == SortDescending(old(usedAccounts))
    {
      SortedStably(usedAccounts);
      usedAccounts := SortDescending(usedAccounts);
    }

    method InvoiceToUsedAccounts(invoice: Account, amount: nat)
      modifies this`usedAccounts
      ensures StablySorted([(invoice, amount)] + old(usedAccounts), usedAccounts)
      ensures usedAccounts == SortDescending([(invoice, amount)] + old(usedAccounts))
    {
      usedAccounts := [(invoice, amount)] + usedAccounts;
      SortUsedAccounts();
    }

    /** Closes the caller's invoice, whose account holds `invoiceBalance`. */
    method CloseInvoiceOf(caller: Principal, invoiceBalance: nat) returns (ok: bool, totals: nat)
      modifies this
      ensures ok <==> Step(old(View()), CloseInvoice(caller, invoiceBalance)).Done?
      ensures ok ==> Step(old(View()), CloseInvoice(caller, invoiceBalance)) == Done(View(), [])
      ensures ok ==> totals == BalanceOf(accountBalances, caller)
    {
      var deposit := if caller in invoices then invoiceBalance else 0;
      if caller in invoices && deposit > 0 {
        InvoiceToUsedAccounts(invoices[caller], deposit);
      }
      ghost var pool := usedAccounts;
      ok, totals := Mint(caller, deposit);
      if ok {
        invoices := invoices - {caller};
        assert View() == Ledger(old(accountBalances)[caller := totals], old(invoices) - {caller}, pool, old(totalSupply) + deposit);
      }
    }

    /** Pays `piece` out of the head of the pool and takes the head off. */
    method PayFromHead(piece: nat) returns (ok: bool, request: (Account, nat))
      requires usedAccounts != [] && piece <= usedAccounts[0].1
      modifies this`usedAccounts, this`totalSupply
      ensures ok <==> FEE <= piece <= old(totalSupply)
      ensures ok ==> totalSupply == old(totalSupply) - piece && usedAccounts == old(usedAccounts)[1..]
      ensures request == AfterFee((old(usedAccounts)[0].0, piece), FEE)
    {
      var current := usedAccounts[0];
      request := AfterFee((current.0, piece), FEE);
      usedAccounts := usedAccounts[1..];
      if piece < FEE || totalSupply < piece {
        return false, request;
      }
      totalSupply := totalSupply - piece;
      ok := true;
    }

    /** Draws an amount from the head of the pool; `requests` lists what is asked of each
        account. */
    method DrawOnPool(amount: nat) returns (ok: bool, requests: Pool)
      modifies this`usedAccounts, this`totalSupply
      ensures ok <==> Affordable(DrawDown(old(usedAccounts), amount).0, old(totalSupply))
      ensures ok ==> requests == LessFee(DrawDown(old(usedAccounts), amount).0, FEE)
      ensures ok ==> totalSupply == old(totalSupply) - Sum(DrawDown(old(usedAccounts), amount).0)
      ensures ok ==> usedAccounts == DrawDown(old(usedAccounts), amount).1
    {
      requests := [];
      var leftover: nat := amount;
      ghost var pieces, rest := DrawDown(usedAccounts, amount).0, DrawDown(usedAccounts, amount).1;
      ghost var taken: Pool := [];
      while usedAccounts != []
        invariant pieces == taken + DrawDown(usedAccounts, leftover).0
        invariant rest == DrawDown(usedAccounts, leftover).1
        invariant Drawn(taken, requests, old(totalSupply), totalSupply)
        decreases |usedAccounts|
      {
        var current := usedAccounts[0];
        DrawStep(taken, usedAccounts, leftover);
        var request;
        if current.1 < leftover {
          // The whole entry, and more.
          ghost var supply := totalSupply;
          ok, request := PayFromHead(current.1);
          DrawnMore(taken, requests, old(totalSupply), supply, current, pieces);
          if !ok {
            return;
          }
          requests := requests + [request];
          taken := taken + [current];
          leftover := leftover - current.1;
        } else {
          // The part of the entry that is still needed.
          ghost var supply := totalSupply;
          ok, request := PayFromHead(leftover);
          DrawnMore(taken, requests, old(totalSupply), supply, (current.0, leftover), pieces);
          if !ok {
            return;
          }
          requests := requests + [request];
          if current.1 != leftover {
            usedAccounts := [(current.0, current.1 - leftover)] + usedAccounts;
            SortUsedAccounts();
          }
          return;
        }
      }
      assert pieces == taken;
      ok := true;
    }

    /** Burns an amount of the caller's balance and asks the accounts at the head of the pool to
        pay it out. */
    method UnwrapBtc(caller: Principal, amount: nat) returns (ok: bool, requests: Pool)
      modifies this
      ensures ok <==> Step(old(View()), Unwrap(caller, amount)).Done?
      ensures ok ==> Step(old(View()), Unwrap(caller, amount)) == Done(View(), requests)
    {
      var b := BalanceOf(accountBalances, caller);
      if b < amount {
        return true, [];
      }
      ok, requests := DrawOnPool(amount);
      if ok {
        accountBalances := accountBalances[caller := b - amount];
      }
    }
  }

  // What has been drawn so far: the requests ask for it less fees, and the supply has lost it.
  ghost predicate Drawn(taken: Pool, requests: Pool, before: nat, supply: nat) {
    AllAtLeast(taken, FEE) && requests == LessFee(taken, FEE) && supply + Sum(taken) == before
  }

  lemma {:induction false} DrawStep(taken: Pool, pool: Pool, leftover: nat)
    requires pool != []
    ensures pool[0].1 < leftover ==>
              taken + DrawDown(pool, leftover).0 == (taken + [pool[0]]) + DrawDown(pool[1..], leftover - pool[0].1).0
    ensures leftover <= pool[0].1 ==> taken + DrawDown(pool, leftover).0 == taken + [(pool[0].0, leftover)]
    ensures DrawDown(pool, leftover).1 ==
            if pool[0].1 < leftover then DrawDown(pool[1..], leftover - pool[0].1).1
            else if pool[0].1 == leftover then pool[1..]
            else SortDescending([(pool[0].0, pool[0].1 - leftover)] + pool[1..])
  {
  }

  lemma {:induction false} DrawnMore(taken: Pool, requests: Pool, before: nat, supply: nat, x: (Account, nat), pieces: Pool)
    requires Drawn(taken, requests, before, supply) && taken + [x] <= pieces
    ensures FEE <= x.1 <= supply ==> Drawn(taken + [x], requests + [AfterFee(x, FEE)], before, supply - x.1)
    ensures !(FEE <= x.1 <= supply) ==> !Affordable(pieces, before)
    ensures FEE <= x.1 <= supply && pieces == taken + [x] ==> Affordable(pieces, before)
  {
    var longer := taken + [x];
    SumAppend(taken, [x]);
    SumOne(x);
    assert pieces == longer + pieces[|longer|..];
    SumAppend(longer, pieces[|longer|..]);
    assert pieces[|taken|] == x;
    LessFeeSnoc(taken, x, FEE);
  }
}
