/** The pool of accounts that back a wrapped balance: amounts in descending order, drawn down
    greedily. */
module Pools {

  // A reference to an account actor; only compared.
  type Account(==, !new)

  type Pool = seq<(Account, nat)>

  function Sum(pool: Pool): nat {
    if pool == [] then 0 else pool[0].1 + Sum(pool[1..])
  }

  // The largest amounts come first.
  ghost predicate Descending(pool: Pool) {
    forall i, j | 0 <= i < j < |pool| :: pool[j].1 <= pool[i].1
  }

  ghost predicate Positive(pool: Pool) {
    forall i | 0 <= i < |pool| :: 0 < pool[i].1
  }

  // A stable sort by descending amount.
  function SortDescending(pool: Pool): Pool {
    if pool == [] then [] else InsertDescending(pool[0], SortDescending(pool[1..]))
  }

  function InsertDescending(x: (Account, nat), pool: Pool): Pool {
    if pool == [] || pool[0].1 <= x.1 then [x] + pool
    else [pool[0]] + InsertDescending(x, pool[1..])
  }

  lemma {:induction false} InsertKeeps(x: (Account, nat), pool: Pool)
    ensures multiset(InsertDescending(x, pool)) == multiset{x} + multiset(pool)
    ensures Sum(InsertDescending(x, pool)) == x.1 + Sum(pool)
  {
    if pool == [] || pool[0].1 <= x.1 {
    } else {
      InsertKeeps(x, pool[1..]);
      assert pool == [pool[0]] + pool[1..];
    }
  }

  lemma {:induction false} InsertSorts(x: (Account, nat), pool: Pool)
    requires Descending(pool)
    ensures Descending(InsertDescending(x, pool))
  {
    if pool == [] || pool[0].1 <= x.1 {
    } else {
      InsertSorts(x, pool[1..]);
      InsertWithin(x, pool[1..], pool[0].1);
    }
  }

  lemma {:induction false} InsertWithin(x: (Account, nat), pool: Pool, bound: nat)
    requires x.1 <= bound && forall i | 0 <= i < |pool| :: pool[i].1 <= bound
    ensures forall i | 0 <= i < |InsertDescending(x, pool)| :: InsertDescending(x, pool)[i].1 <= bound
  {
    if pool == [] || pool[0].1 <= x.1 {
    } else {
      InsertWithin(x, pool[1..], bound);
    }
  }

  lemma {:induction false} SortSorts(pool: Pool)
    ensures Descending(SortDescending(pool))
  {
    if pool == [] {
    } else {
      SortSorts(pool[1..]);
      InsertSorts(pool[0], SortDescending(pool[1..]));
    }
  }

  // Sorting keeps the entries and their sum.
  lemma {:induction false} SortKeeps(pool: Pool)
    ensures multiset(SortDescending(pool)) == multiset(pool)
    ensures Sum(SortDescending(pool)) == Sum(pool)
  {
    if pool == [] {
    } else {
      SortKeeps(pool[1..]);
      InsertKeeps(pool[0], SortDescending(pool[1..]));
      assert pool == [pool[0]] + pool[1..];
    }
  }

  // The entries of a given amount, in order.
  function OfAmount(pool: Pool, amount: nat): Pool {
    if pool == [] then []
    else if pool[0].1 == amount then [pool[0]] + OfAmount(pool[1..], amount)
    else OfAmount(pool[1..], amount)
  }

  lemma {:induction false} InsertIsStable(x: (Account, nat), pool: Pool, amount: nat)
    requires Descending(pool)
    ensures OfAmount(InsertDescending(x, pool), amount) == (if x.1 == amount then [x] else []) + OfAmount(pool, amount)
  {
    if pool == [] || pool[0].1 <= x.1 {
      assert ([x] + pool)[1..] == pool;
    } else {
      InsertIsStable(x, pool[1..], amount);
      if x.1 == amount {
        NoneOfAmount(pool, amount);
      }
    }
  }

  // Larger entries stand before those of the amount.
  lemma {:induction false} NoneOfAmount(pool: Pool, amount: nat)
    requires pool != [] && amount < pool[0].1
    ensures OfAmount(pool, amount) == OfAmount(pool[1..], amount)
  {
  }

  // Sorting keeps the order of equal amounts.
  lemma {:induction false} SortIsStable(pool: Pool, amount: nat)
    ensures OfAmount(SortDescending(pool), amount) == OfAmount(pool, amount)
  {
    if pool == [] {
    } else {
      SortIsStable(pool[1..], amount);
      SortSorts(pool[1..]);
      InsertIsStable(pool[0], SortDescending(pool[1..]), amount);
    }
  }

  // The same entries, larger amounts first, equal amounts in the order they had.
  ghost predicate StablySorted(pool: Pool, sorted: Pool) {
    && Descending(sorted) && multiset(sorted) == multiset(pool)
    && forall amount :: OfAmount(sorted, amount) == OfAmount(pool, amount)
  }

  lemma {:induction false} SortedStably(pool: Pool)
    ensures StablySorted(pool, SortDescending(pool))
  {
    SortSorts(pool);
    SortKeeps(pool);
    forall amount ensures OfAmount(SortDescending(pool), amount) == OfAmount(pool, amount) {
      SortIsStable(pool, amount);
    }
  }

  lemma {:induction false} SortKeepsPositive(pool: Pool)
    requires Positive(pool)
    ensures Positive(SortDescending(pool))
  {
    var sorted := SortDescending(pool);
    SortKeeps(pool);
    forall i | 0 <= i < |sorted| ensures 0 < sorted[i].1 {
      assert sorted[i] in multiset(sorted);
      assert sorted[i] in pool;
    }
  }

  // ---- Drawing down ----

  // The pieces taken from the head of the pool to cover an amount, and what remains. Only the
  // last entry drawn on may be split; its remainder is sorted back in.
  function DrawDown(pool: Pool, amount: nat): (r: (Pool, Pool)) {
    if pool == [] then ([], [])
    else if pool[0].1 < amount then
      var (pieces, rest) := DrawDown(pool[1..], amount - pool[0].1);
      ([pool[0]] + pieces, rest)
    else if pool[0].1 == amount then ([pool[0]], pool[1..])
    else ([(pool[0].0, amount)], SortDescending([(pool[0].0, pool[0].1 - amount)] + pool[1..]))
  }

  // The pieces cover exactly the amount, or everything when the pool holds less; they come
  // from the accounts at the head of the pool; and the pool loses exactly what they take.
  lemma {:induction false} DrawDownConserves(pool: Pool, amount: nat)
    ensures var (pieces, rest) := DrawDown(pool, amount);
            && Sum(pieces) + Sum(rest) == Sum(pool)
            && Sum(pieces) == (if amount <= Sum(pool) then amount else Sum(pool))
            && |pieces| <= |pool|
            && forall i | 0 <= i < |pieces| :: pieces[i].0 == pool[i].0 && pieces[i].1 <= pool[i].1
  {
    if pool == [] {
    } else {
      if pool[0].1 < amount {
        DrawDownConserves(pool[1..], amount - pool[0].1);
      } else if pool[0].1 == amount {
        var one: Pool := [pool[0]];
        assert one[1..] == [];
      } else {
        var split: Pool := [(pool[0].0, pool[0].1 - amount)] + pool[1..];
        assert split[1..] == pool[1..];
        SortKeeps(split);
      }
    }
  }

  // The pieces come from the first accounts, and are their whole entries but for the last, which
  // is what is still missing.
  ghost predicate TakenFromHead(pool: Pool, amount: nat, pieces: Pool) {
    var n := |pieces|;
    && 0 < n <= |pool|
    && (forall i | 0 <= i < n :: pieces[i].0 == pool[i].0)
    && (forall i | 0 <= i < n - 1 :: pieces[i].1 == pool[i].1)
    && Sum(pool[..n - 1]) + pieces[n - 1].1 == amount && (1 < n ==> Sum(pool[..n - 1]) < amount)
  }

  // The rest of the pool, with the remainder of the n-th entry sorted back in, if there is one.
  ghost predicate LeftBehind(pool: Pool, amount: nat, n: nat, rest: Pool) {
    && 0 < n <= |pool| && amount <= Sum(pool[..n])
    && var left := Sum(pool[..n]) - amount;
       if left == 0 then rest == pool[n..] else StablySorted([(pool[n - 1].0, left)] + pool[n..], rest)
  }

  // The draw down to the entry.
  lemma {:induction false} DrawDownExactly(pool: Pool, amount: nat)
    requires amount <= Sum(pool) && pool != []
    ensures var (pieces, rest) := DrawDown(pool, amount);
            TakenFromHead(pool, amount, pieces) && LeftBehind(pool, amount, |pieces|, rest)
  {
    if amount <= pool[0].1 {
      DrawnFromFirst(pool, amount);
    } else {
      var (pieces, rest) := DrawDown(pool[1..], amount - pool[0].1);
      DrawDownExactly(pool[1..], amount - pool[0].1);
      TakenMore(pool, amount, pieces);
      LeftMore(pool, amount, |pieces|, rest);
      assert DrawDown(pool, amount) == ([pool[0]] + pieces, rest);
    }
  }

  lemma {:induction false} DrawnFromFirst(pool: Pool, amount: nat)
    requires pool != [] && amount <= pool[0].1
    ensures var (pieces, rest) := DrawDown(pool, amount);
            TakenFromHead(pool, amount, pieces) && LeftBehind(pool, amount, |pieces|, rest)
  {
    SumFirst(pool, 1);
    assert pool[1..][..0] == [] && pool[..0] == [];
    if amount < pool[0].1 {
      SortedStably([(pool[0].0, pool[0].1 - amount)] + pool[1..]);
    }
  }

  lemma {:induction false} TakenMore(pool: Pool, amount: nat, pieces: Pool)
    requires pool != [] && pool[0].1 < amount && TakenFromHead(pool[1..], amount - pool[0].1, pieces)
    ensures TakenFromHead(pool, amount, [pool[0]] + pieces)
  {
    SumFirst(pool, |pieces|);
    var more := [pool[0]] + pieces;
    assert forall i | 1 <= i < |more| :: more[i] == pieces[i - 1] && pool[i] == pool[1..][i - 1];
  }

  lemma {:induction false} LeftMore(pool: Pool, amount: nat, n: nat, rest: Pool)
    requires pool != [] && pool[0].1 < amount && LeftBehind(pool[1..], amount - pool[0].1, n, rest)
    ensures LeftBehind(pool, amount, n + 1, rest)
  {
    SumFirst(pool, n + 1);
    assert pool[1..][n..] == pool[n + 1..];
  }

  lemma {:induction false} SumFirst(pool: Pool, n: nat)
    requires 0 < n <= |pool|
    ensures Sum(pool[..n]) == pool[0].1 + Sum(pool[1..][..n - 1])
  {
    assert pool[..n][1..] == pool[1..][..n - 1];
  }

  // The pieces get no larger, so that the last one is the smallest.
  lemma {:induction false} PiecesDescend(pool: Pool, amount: nat)
    requires Descending(pool)
    ensures Descending(DrawDown(pool, amount).0)
  {
    if pool == [] || amount <= pool[0].1 {
    } else {
      PiecesDescend(pool[1..], amount - pool[0].1);
      DrawDownConserves(pool[1..], amount - pool[0].1);
    }
  }

  lemma {:induction false} DrawDownKeepsOrder(pool: Pool, amount: nat)
    requires Descending(pool) && Positive(pool)
    ensures Descending(DrawDown(pool, amount).1) && Positive(DrawDown(pool, amount).1)
  {
    if pool == [] {
    } else {
      if pool[0].1 < amount {
        DrawDownKeepsOrder(pool[1..], amount - pool[0].1);
      } else if amount < pool[0].1 {
        var split: Pool := [(pool[0].0, pool[0].1 - amount)] + pool[1..];
        SortSorts(split);
        SortKeepsPositive(split);
      }
    }
  }

  // ---- The greedy draw is optimal ----

  // The entries that a mask selects: how many, and how much they hold.
  function Count(mask: seq<bool>): nat {
    if mask == [] then 0 else (if mask[0] then 1 else 0) + Count(mask[1..])
  }

  function Selected(pool: Pool, mask: seq<bool>): nat
    requires |mask| == |pool|
  {
    if pool == [] then 0 else (if mask[0] then pool[0].1 else 0) + Selected(pool[1..], mask[1..])
  }

  lemma {:induction false} CountBound(mask: seq<bool>)
    ensures Count(mask) <= |mask|
  {
    if mask == [] {
    } else {
      CountBound(mask[1..]);
    }
  }

  lemma {:induction false} SumSnoc(pool: Pool, n: nat)
    requires n < |pool|
    ensures Sum(pool[..n + 1]) == Sum(pool[..n]) + pool[n].1
  {
    if n == 0 {
      assert pool[..1] == [pool[0]] && pool[..1][1..] == [] && pool[..0] == [];
    } else {
      assert pool[..n + 1][1..] == pool[1..][..n] && pool[..n][1..] == pool[1..][..n - 1];
      SumSnoc(pool[1..], n - 1);
    }
  }

  // Later entries hold no more than earlier ones.
  lemma {:induction false} TailHoldsLess(pool: Pool, n: nat)
    requires Descending(pool) && n < |pool|
    ensures Sum(pool[1..][..n]) <= Sum(pool[..n])
  {
    if n == 0 {
    } else {
      TailHoldsLess(pool, n - 1);
      SumSnoc(pool[1..], n - 1);
      SumSnoc(pool, n - 1);
    }
  }

  // No selection of n entries holds more than the first n.
  lemma {:induction false} HeadHoldsMost(pool: Pool, mask: seq<bool>)
    requires Descending(pool) && |mask| == |pool|
    ensures Count(mask) <= |pool| && Selected(pool, mask) <= Sum(pool[..Count(mask)])
  {
    CountBound(mask);
    if pool == [] {
    } else {
      HeadHoldsMost(pool[1..], mask[1..]);
      var n := Count(mask[1..]);
      if mask[0] {
        assert pool[..n + 1][1..] == pool[1..][..n];
      } else {
        TailHoldsLess(pool, n);
      }
    }
  }

  // All pieces but the last are whole entries, and they do not cover the amount yet.
  lemma {:induction false} DrawsNoMoreThanNeeded(pool: Pool, amount: nat)
    requires 0 < amount && DrawDown(pool, amount).0 != []
    ensures var n := |DrawDown(pool, amount).0| - 1;
            n <= |pool| && Sum(pool[..n]) < amount && DrawDown(pool, amount).0[..n] == pool[..n]
  {
    var pieces := DrawDown(pool, amount).0;
    if pool[0].1 < amount {
      var more := DrawDown(pool[1..], amount - pool[0].1).0;
      if more == [] {
        assert pieces == [pool[0]];
      } else {
        DrawsNoMoreThanNeeded(pool[1..], amount - pool[0].1);
        var n := |pieces| - 1;
        assert pool[..n][1..] == pool[1..][..n - 1];
        assert pieces[..n] == [pool[0]] + more[..n - 1];
      }
    }
  }

  // No selection of entries that covers the amount has fewer entries than the greedy draw.
  lemma {:induction false} GreedyDrawIsOptimal(pool: Pool, amount: nat, mask: seq<bool>)
    requires Descending(pool) && 0 < amount
    requires |mask| == |pool| && amount <= Selected(pool, mask)
    ensures |DrawDown(pool, amount).0| <= Count(mask)
  {
    HeadHoldsMost(pool, mask);
    var pieces := DrawDown(pool, amount).0;
    if pieces != [] && Count(mask) < |pieces| {
      DrawsNoMoreThanNeeded(pool, amount);
      SumMonotone(pool, Count(mask), |pieces| - 1);
    }
  }

  lemma {:induction false} SumMonotone(pool: Pool, m: nat, n: nat)
    requires m <= n <= |pool|
    ensures Sum(pool[..m]) <= Sum(pool[..n])
  {
    if m < n {
      SumMonotone(pool, m, n - 1);
      SumSnoc(pool, n - 1);
    }
  }

  lemma {:induction false} SumAppend(a: Pool, b: Pool)
    ensures Sum(a + b) == Sum(a) + Sum(b)
  {
    if a == [] {
      assert a + b == b;
    } else {
      assert (a + b)[1..] == a[1..] + b;
      SumAppend(a[1..], b);
    }
  }

  lemma {:induction false} SumOne(x: (Account, nat))
    ensures Sum([x]) == x.1
  {
    var one: Pool := [x];
    assert one[1..] == [];
  }

  // ---- Fees ----

  predicate AllAtLeast(pieces: Pool, fee: nat) {
    forall i | 0 <= i < |pieces| :: fee <= pieces[i].1
  }

  // Only the last piece can be below the fee.
  lemma {:induction false} LastPieceDecides(pool: Pool, amount: nat, fee: nat)
    requires Descending(pool)
    ensures var pieces := DrawDown(pool, amount).0;
            AllAtLeast(pieces, fee) <==> pieces == [] || fee <= pieces[|pieces| - 1].1
  {
    PiecesDescend(pool, amount);
  }

  // What is asked of each account: the piece without the fee.
  function LessFee(pieces: Pool, fee: nat): Pool {
    seq(|pieces|, i requires 0 <= i < |pieces| => AfterFee(pieces[i], fee))
  }

  function AfterFee(piece: (Account, nat), fee: nat): (Account, nat) {
    (piece.0, if fee <= piece.1 then piece.1 - fee else 0)
  }

  lemma {:induction false} LessFeeSnoc(pieces: Pool, x: (Account, nat), fee: nat)
    ensures AllAtLeast(pieces + [x], fee) <==> AllAtLeast(pieces, fee) && fee <= x.1
    ensures LessFee(pieces + [x], fee) == LessFee(pieces, fee) + [AfterFee(x, fee)]
  {
    var longer := pieces + [x];
    assert longer[|pieces|] == x;
    assert forall i | 0 <= i < |pieces| :: longer[i] == pieces[i];
  }

  lemma {:induction false} SentInAll(pieces: Pool, fee: nat)
    requires AllAtLeast(pieces, fee)
    ensures Sum(LessFee(pieces, fee)) + fee * |pieces| == Sum(pieces)
  {
    if pieces == [] {
    } else {
      assert LessFee(pieces, fee)[1..] == LessFee(pieces[1..], fee);
      SentInAll(pieces[1..], fee);
    }
  }
}
