/** What the canister answers about an address: the partial replay is as good as a full one,
    and settling a stable block changes no answer but the heights of its outputs. */
module Queries {
  import opened Bitcoin
  import opened BlockTrees
  import opened CurrentChain
  import opened ForestSteps
  import opened Stabilisation
  import opened UtxoSets
  import opened Replay
  import opened Values
  import opened Store

  // ---- The partial replay refines the full one ----

  // What the canister computes from the address's slice is what replaying the confirmed blocks
  // over the whole set leaves to the address.
  lemma {:induction false} AnswerIsFull(u: Utxos, chain: seq<Block>, first: nat, mainHeight: nat, a: Address, network: Network, minConfirmations: nat)
    ensures AnswerFrom(u, chain, first, mainHeight, a, network, minConfirmations)
         == UtxosFrom(u, chain, first, mainHeight, a, network, minConfirmations)
  {
    PartialReplayRefinesFull(u, a, network, ConfirmedPart(chain, minConfirmations), first);
  }

  // If replaying the confirmed blocks strictly over the whole stable set does not panic, then
  // the query for any address whose outpoints it does not create twice meets no trouble either,
  // and answers what that replay leaves to the address.
  lemma {:induction false} QueryRefinesFullReplay(u: Utxos, chain: seq<Block>, first: nat, mainHeight: nat, a: Address, network: Network, minConfirmations: nat)
    requires CleanReplay(u, chain, first, minConfirmations, a, network, true)
    ensures CleanReplay(Slice(u, a, network), chain, first, minConfirmations, a, network, false)
    ensures AnswerFrom(u, chain, first, mainHeight, a, network, minConfirmations)
         == UtxosFrom(u, chain, first, mainHeight, a, network, minConfirmations)
  {
    PartialReplayRefinesFull(u, a, network, ConfirmedPart(chain, minConfirmations), first);
  }

  // What the canister answers, outpoint by outpoint: the outputs that are unspent after the stable
  // set and the first `n` blocks of the chain, where the n-th is the first with too few
  // confirmations, that pay the address and have enough confirmations themselves.
  lemma {:induction false} AnswerMembers(p: Snapshot, a: Address, network: Network, minConfirmations: nat, n: nat, op: OutPoint)
    requires n <= |p.chain|
    requires n < |p.chain| ==> (|p.chain| + p.height) - (p.height + n + 1) + 1 < minConfirmations
    requires 0 < n ==> minConfirmations <= (|p.chain| + p.height) - (p.height + n) + 1
    ensures var view := ApplyChain(p.utxos, p.chain[..n], p.height + 1);
            var answer := AnswerOf(p, a, network, minConfirmations);
            && (op in answer <==>
                && op in view && ADDRESS_FROM_SCRIPT(view[op].output.scriptPubkey, network) == Some(a)
                && minConfirmations <= (|p.chain| + p.height) - view[op].height + 1)
            && (op in answer ==> answer[op] == view[op])
  {
    assert n == Confirmed(|p.chain|, minConfirmations);
    AnswerIsFull(p.utxos, p.chain, p.First(), p.MainHeight(), a, network, minConfirmations);
    FullMembers(FullView(p.utxos, p.chain, p.First(), minConfirmations), a, network, p.MainHeight(), minConfirmations, op);
  }

  lemma {:induction false} FullMembers(view: Utxos, a: Address, network: Network, mainHeight: nat, minConfirmations: nat, op: OutPoint)
    ensures var kept := Enough(Slice(view, a, network), mainHeight, minConfirmations);
            && (op in kept <==>
                && op in view && ADDRESS_FROM_SCRIPT(view[op].output.scriptPubkey, network) == Some(a)
                && minConfirmations <= mainHeight - view[op].height + 1)
            && (op in kept ==> kept[op] == view[op])
  {
  }

  // A block of the chain is replayed if and only if it has enough confirmations.
  lemma {:induction false} ReplayedIffConfirmed(chain: seq<Block>, height: nat, minConfirmations: nat, i: nat)
    requires i < |chain|
    ensures i < |ConfirmedPart(chain, minConfirmations)| <==>
            (|chain| + height) - (height + i + 1) + 1 >= minConfirmations
  {
    ConfirmedCutoff(|chain|, minConfirmations, i);
  }

  // ---- Heights ----

  // All answers carry heights between 1 and that of the main chain, so that no confirmation
  // count underflows; and asking for no confirmations is asking for one.
  lemma {:induction false} AnswersInRange(p: Snapshot, a: Address, network: Network, minConfirmations: nat)
    requires p.HeightsValid()
    ensures HeightsWithin(AnswerOf(p, a, network, minConfirmations), 1, p.MainHeight())
    ensures AnswerOf(p, a, network, 0) == AnswerOf(p, a, network, 1)
  {
    AnswerInRange(p.utxos, p.chain, p.First(), p.MainHeight(), a, network, minConfirmations);
    NoneOrOne(p.utxos, p.chain, p.First(), p.MainHeight(), a, network);
  }

  lemma {:induction false} AnswerInRange(u: Utxos, chain: seq<Block>, first: nat, mainHeight: nat, a: Address, network: Network, minConfirmations: nat)
    requires 1 <= first && HeightsWithin(u, 1, first - 1) && mainHeight + 1 == first + |chain|
    ensures HeightsWithin(PartialView(u, chain, first, a, network, minConfirmations), 1, mainHeight)
    ensures HeightsWithin(AnswerFrom(u, chain, first, mainHeight, a, network, minConfirmations), 1, mainHeight)
  {
    HeightsChain(Slice(u, a, network), ConfirmedPart(chain, minConfirmations), first, 1, mainHeight);
  }

  lemma {:induction false} NoneOrOne(u: Utxos, chain: seq<Block>, first: nat, mainHeight: nat, a: Address, network: Network)
    requires 1 <= first && HeightsWithin(u, 1, first - 1) && mainHeight + 1 == first + |chain|
    ensures AnswerFrom(u, chain, first, mainHeight, a, network, 0) == AnswerFrom(u, chain, first, mainHeight, a, network, 1)
  {
    AnswerInRange(u, chain, first, mainHeight, a, network, 0);
    assert ConfirmedPart(chain, 0) == ConfirmedPart(chain, 1);
    var view := PartialView(u, chain, first, a, network, 0);
    EnoughOfAll(view, mainHeight, 0);
    EnoughOfAll(view, mainHeight, 1);
  }

  lemma {:induction false} EnoughOfAll(u: Utxos, mainHeight: nat, minConfirmations: nat)
    requires forall op | op in u :: minConfirmations + u[op].height <= mainHeight + 1
    ensures Enough(u, mainHeight, minConfirmations) == u
  {
  }

  // ---- Replaying a block is settling it, one higher ----

  // `v` is `u` with the outputs at height `k` + 1 moved to height `k`.
  ghost predicate Lowered(u: Utxos, v: Utxos, k: nat) {
    && u.Keys == v.Keys
    && forall op | op in u :: v[op] == Utxo(u[op].output, if u[op].height == k + 1 then k else u[op].height)
  }

  lemma {:induction false} LoweredTxs(u: Utxos, v: Utxos, txs: seq<Transaction>, h: nat, j: nat, k: nat)
    requires Lowered(u, v, k) && ((h == k + 1 && j == k) || (h == j && h != k + 1))
    ensures Lowered(ApplyTxs(u, txs, h), ApplyTxs(v, txs, j), k)
    decreases |txs|
  {
    if txs == [] {
    } else {
      LoweredTxs(ApplyTx(u, txs[0], h), ApplyTx(v, txs[0], j), txs[1..], h, j, k);
    }
  }

  lemma {:induction false} LoweredChain(u: Utxos, v: Utxos, chain: seq<Block>, h: nat, k: nat)
    requires Lowered(u, v, k) && k + 1 < h
    ensures Lowered(ApplyChain(u, chain, h), ApplyChain(v, chain, h), k)
    decreases |chain|
  {
    if chain == [] {
    } else {
      var txs := chain[0].txdata;
      LoweredTxs(u, v, txs, h, h, k);
      LoweredChain(ApplyTxs(u, txs, h), ApplyTxs(v, txs, h), chain[1..], h + 1, k);
    }
  }

  lemma {:induction false} LoweredView(u: Utxos, settled: Utxos, b: Block, full: seq<Block>, chain: seq<Block>, k: nat, first: nat, next: nat)
    requires HeightsWithin(u, 1, k) && settled == ApplyTxs(u, b.txdata, k)
    requires full == [b] + chain && first == k + 1 && next == k + 2
    ensures Lowered(ApplyChain(u, full, first), ApplyChain(settled, chain, next), k)
  {
    LoweredTxs(u, u, b.txdata, first, k, k);
    LoweredChain(ApplyTxs(u, b.txdata, first), settled, chain, next, k);
    assert full[1..] == chain;
  }

  // The confirmed blocks before settling are the settled block and those confirmed after, up
  // to as many confirmations as the chain is long.
  lemma {:induction false} ConfirmedBelow(b: Block, full: seq<Block>, chain: seq<Block>, minConfirmations: nat)
    requires full == [b] + chain && minConfirmations <= |full|
    ensures ConfirmedPart(full, minConfirmations) == [b] + ConfirmedPart(chain, minConfirmations)
  {
  }

  lemma {:induction false} LoweredFullView(u: Utxos, settled: Utxos, b: Block, full: seq<Block>, chain: seq<Block>, k: nat, first: nat, next: nat,
                                           minConfirmations: nat)
    requires HeightsWithin(u, 1, k) && settled == ApplyTxs(u, b.txdata, k) && first == k + 1 && next == k + 2
    requires full == [b] + chain && minConfirmations <= |full|
    ensures Lowered(FullView(u, full, first, minConfirmations), FullView(settled, chain, next, minConfirmations), k)
  {
    ConfirmedBelow(b, full, chain, minConfirmations);
    LoweredView(u, settled, b, ConfirmedPart(full, minConfirmations), ConfirmedPart(chain, minConfirmations), k, first, next);
  }

  lemma {:induction false} LoweredAnswer(u: Utxos, v: Utxos, k: nat, mainHeight: nat, minConfirmations: nat, a: Address, network: Network)
    requires Lowered(u, v, k) && minConfirmations + k <= mainHeight
    ensures SameOutputs(Enough(Slice(u, a, network), mainHeight, minConfirmations),
                        Enough(Slice(v, a, network), mainHeight, minConfirmations))
  {
    assert forall op :: Pays(u, op, a, network) <==> Pays(v, op, a, network);
  }

  // The answers before and after moving the first block of the chain to the stable set.
  lemma {:induction false} MovingKeepsAnswers(u: Utxos, settled: Utxos, b: Block, full: seq<Block>, chain: seq<Block>, k: nat, first: nat, next: nat,
                                              mainHeight: nat, a: Address, network: Network, minConfirmations: nat)
    requires HeightsWithin(u, 1, k) && settled == ApplyTxs(u, b.txdata, k) && first == k + 1 && next == k + 2
    requires full == [b] + chain && minConfirmations <= |full| && mainHeight == |full| + k
    ensures SameOutputs(AnswerFrom(u, full, first, mainHeight, a, network, minConfirmations),
                        AnswerFrom(settled, chain, next, mainHeight, a, network, minConfirmations))
  {
    AnswerIsFull(u, full, first, mainHeight, a, network, minConfirmations);
    AnswerIsFull(settled, chain, next, mainHeight, a, network, minConfirmations);
    LoweredFullView(u, settled, b, full, chain, k, first, next, minConfirmations);
    LoweredAnswer(FullView(u, full, first, minConfirmations), FullView(settled, chain, next, minConfirmations),
                  k, mainHeight, minConfirmations, a, network);
  }

  // With one confirmation more than the chain has blocks, the answers are the stable outputs of
  // the address, without and with the moved block: what that block spends and creates shows.
  lemma {:induction false} BeyondTheChain(u: Utxos, settled: Utxos, b: Block, full: seq<Block>, chain: seq<Block>, k: nat, first: nat, next: nat,
                                          mainHeight: nat, a: Address, network: Network)
    requires HeightsWithin(u, 1, k) && settled == ApplyTxs(u, b.txdata, k) && 1 <= k
    requires full == [b] + chain && mainHeight == |full| + k
    ensures AnswerFrom(u, full, first, mainHeight, a, network, |full| + 1) == Slice(u, a, network)
    ensures AnswerFrom(settled, chain, next, mainHeight, a, network, |full| + 1) == Slice(settled, a, network)
  {
    HeightsTxs(u, b.txdata, k, 1, k);
    StableAnswer(u, full, first, mainHeight, k, a, network, |full| + 1);
    StableAnswer(settled, chain, next, mainHeight, k, a, network, |full| + 1);
  }

  lemma {:induction false} StableAnswer(u: Utxos, chain: seq<Block>, first: nat, mainHeight: nat, k: nat, a: Address, network: Network, n: nat)
    requires HeightsWithin(u, 1, k) && |chain| < n && mainHeight + 1 == n + k
    ensures AnswerFrom(u, chain, first, mainHeight, a, network, n) == Slice(u, a, network)
  {
    AnswerIsFull(u, chain, first, mainHeight, a, network, n);
    assert ConfirmedPart(chain, n) == [];
    EnoughOfAll(Slice(u, a, network), mainHeight, n);
  }

  // ---- Moving a block meets no trouble ----

  lemma {:induction false} CleanTail(u: Utxos, settled: Utxos, b: Block, full: seq<Block>, chain: seq<Block>, k: nat, first: nat, next: nat,
                                     a: Address, network: Network)
    requires full == [b] + chain && settled == ApplyTxs(u, b.txdata, k) && first == k + 1 && next == k + 2
    requires AcceptsChain(u, full, first, true) && NoMarks(MarksOfChain(u, full, first, network), a)
    ensures AcceptsTxs(u, b.txdata, k, true) && NoMarks(MarksOfTxs(u, b.txdata, k, network), a)
    ensures AcceptsChain(settled, chain, next, true) && NoMarks(MarksOfChain(settled, chain, next, network), a)
  {
    assert full[1..] == chain;
    SameTroubleTxs(u, u, b.txdata, k, first, true, network);
    SameOutputsTxs(u, u, b.txdata, k, first);
    SameTroubleChain(settled, ApplyTxs(u, b.txdata, first), chain, next, next, true, network);
  }

  lemma {:induction false} CleanBelow(u: Utxos, settled: Utxos, b: Block, full: seq<Block>, chain: seq<Block>, k: nat, first: nat, next: nat,
                                      a: Address, network: Network)
    requires full == [b] + chain && settled == ApplyTxs(u, b.txdata, k) && first == k + 1 && next == k + 2
    requires CleanReplay(u, full, first, 0, a, network, true)
    ensures AcceptsTxs(u, b.txdata, k, true) && NoMarks(MarksOfTxs(u, b.txdata, k, network), a)
    ensures CleanReplay(settled, chain, next, 0, a, network, true)
  {
    assert ConfirmedPart(full, 0) == full && ConfirmedPart(chain, 0) == chain;
    CleanTail(u, settled, b, full, chain, k, first, next, a, network);
  }

  // A replay without trouble is without trouble as far as any number of confirmations.
  lemma {:induction false} CleanAtAll(u: Utxos, chain: seq<Block>, first: nat, minConfirmations: nat, a: Address, network: Network)
    requires CleanReplay(u, chain, first, 0, a, network, true)
    ensures CleanReplay(u, chain, first, minConfirmations, a, network, true)
  {
    assert ConfirmedPart(chain, 0) == chain;
    ChainPrefix(u, chain, first, Confirmed(|chain|, minConfirmations), true, network);
  }

  // ---- Settling a stable block ----

  // `r` is `p` after moving the given first block of the chain to the stable set, or nothing.
  ghost predicate Moved(popped: Option<Block>, p: Snapshot, r: Snapshot) {
    match popped
    case Some(b) => r.height == p.height + 1 && r.utxos == ApplyTxs(p.utxos, b.txdata, p.height) && p.chain == [b] + r.chain
    case None => r == p
  }

  // The whole set under the current chain is the same, but for outputs of the moved block.
  ghost predicate SameView(popped: Option<Block>, p: Snapshot, r: Snapshot, minConfirmations: nat) {
    var before := FullView(p.utxos, p.chain, p.First(), minConfirmations);
    var after := FullView(r.utxos, r.chain, r.First(), minConfirmations);
    if popped == None then after == before else Lowered(before, after, p.height)
  }

  // The same outputs, and the same balance.
  ghost predicate SameAnswers(u: Utxos, v: Utxos) {
    SameOutputs(u, v) && Total(u) == Total(v)
  }

  lemma {:induction false} MovedView(popped: Option<Block>, p: Snapshot, r: Snapshot, minConfirmations: nat)
    requires Moved(popped, p, r) && p.HeightsValid() && minConfirmations <= |p.chain|
    ensures SameView(popped, p, r, minConfirmations) && r.MainHeight() == p.MainHeight()
  {
    if popped.Some? {
      LoweredFullView(p.utxos, r.utxos, popped.value, p.chain, r.chain, p.height, p.First(), r.First(), minConfirmations);
    }
  }

  lemma {:induction false} MovedAnswers(popped: Option<Block>, p: Snapshot, r: Snapshot, a: Address, network: Network, minConfirmations: nat)
    requires Moved(popped, p, r) && p.HeightsValid() && minConfirmations <= |p.chain|
    ensures SameAnswers(AnswerOf(p, a, network, minConfirmations), AnswerOf(r, a, network, minConfirmations))
  {
    if popped.Some? {
      MovedOutputs(popped.value, p, r, p.First(), r.First(), p.MainHeight(), a, network, minConfirmations);
    }
    SameOutputsTotal(AnswerOf(p, a, network, minConfirmations), AnswerOf(r, a, network, minConfirmations));
  }

  lemma {:induction false} MovedOutputs(b: Block, p: Snapshot, r: Snapshot, first: nat, next: nat, mainHeight: nat,
                                        a: Address, network: Network, minConfirmations: nat)
    requires Moved(Some(b), p, r) && p.HeightsValid() && minConfirmations <= |p.chain|
    requires first == p.First() && next == r.First() && mainHeight == p.MainHeight()
    ensures mainHeight == r.MainHeight()
    ensures SameOutputs(AnswerFrom(p.utxos, p.chain, first, mainHeight, a, network, minConfirmations),
                        AnswerFrom(r.utxos, r.chain, next, mainHeight, a, network, minConfirmations))
  {
    MovingKeepsAnswers(p.utxos, r.utxos, b, p.chain, r.chain, p.height, first, next, mainHeight, a, network, minConfirmations);
  }

  // The strict replay of the whole current chain has no trouble with the address.
  ghost predicate Untroubled(p: Snapshot, a: Address, network: Network) {
    CleanReplay(p.utxos, p.chain, p.First(), 0, a, network, true)
  }

  // Then every query of the address has no trouble either, whatever its confirmations.
  lemma {:induction false} UntroubledQueries(p: Snapshot, a: Address, network: Network, minConfirmations: nat)
    requires Untroubled(p, a, network)
    ensures CleanQuery(p, a, network, minConfirmations)
  {
    CleanAtAll(p.utxos, p.chain, p.First(), minConfirmations, a, network);
    QueryRefinesFullReplay(p.utxos, p.chain, p.First(), p.MainHeight(), a, network, minConfirmations);
  }

  lemma {:induction false} MovedUntroubled(b: Block, p: Snapshot, r: Snapshot, a: Address, network: Network)
    requires Untroubled(p, a, network) && Moved(Some(b), p, r)
    ensures AcceptsTxs(p.utxos, b.txdata, p.height, true) && NoMarks(MarksOfTxs(p.utxos, b.txdata, p.height, network), a)
    ensures Untroubled(r, a, network)
  {
    CleanBelow(p.utxos, r.utxos, b, p.chain, r.chain, p.height, p.First(), r.First(), a, network);
  }

  lemma {:induction false} SettledMoves(s: ChainState, t: ChainState, delta: nat)
    requires WellFormed(s.trees) && 1 <= delta && Settle(s, delta) == Some(t)
    ensures Moved(Popped(s.trees, s.anchor, delta).0, s.AsSeen(), t.AsSeen())
  {
    StabilisationIsInvisible(s.trees, s.anchor, delta);
  }

  // Settling keeps the height of the main chain. Up to as many confirmations as the chain is
  // long, the view of the chain changes only in that the outputs of the settled block are one
  // lower than before.
  lemma {:induction false} SettlingKeepsView(s: ChainState, t: ChainState, delta: nat, minConfirmations: nat)
    requires s.AsSeen().HeightsValid() && WellFormed(s.trees) && 1 <= delta && Settle(s, delta) == Some(t)
    requires minConfirmations <= |s.AsSeen().chain|
    ensures t.AsSeen().MainHeight() == s.AsSeen().MainHeight()
    ensures SameView(Popped(s.trees, s.anchor, delta).0, s.AsSeen(), t.AsSeen(), minConfirmations)
  {
    SettledMoves(s, t, delta);
    MovedView(Popped(s.trees, s.anchor, delta).0, s.AsSeen(), t.AsSeen(), minConfirmations);
  }

  // Up to as many confirmations as the chain is long, the canister answers every address with
  // the same outputs and the same balance before and after settling.
  lemma {:induction false} SettlingKeepsBalances(s: ChainState, t: ChainState, delta: nat, a: Address, network: Network, minConfirmations: nat)
    requires s.AsSeen().HeightsValid() && WellFormed(s.trees) && 1 <= delta && Settle(s, delta) == Some(t)
    requires minConfirmations <= |s.AsSeen().chain|
    ensures SameAnswers(AnswerOf(s.AsSeen(), a, network, minConfirmations), AnswerOf(t.AsSeen(), a, network, minConfirmations))
  {
    SettledMoves(s, t, delta);
    MovedAnswers(Popped(s.trees, s.anchor, delta).0, s.AsSeen(), t.AsSeen(), a, network, minConfirmations);
  }

  // The state after settling, if that does not panic.
  ghost function SettledState(s: ChainState, delta: nat): ChainState {
    var (popped, trees) := Popped(s.trees, s.anchor, delta);
    match popped
    case Some(b) => ChainState(s.height + 1, b.Hash(), ApplyTxs(s.utxos, b.txdata, s.height), trees)
    case None => s.(trees := trees)
  }

  lemma {:induction false} SettledStateMoves(s: ChainState, delta: nat)
    requires WellFormed(s.trees) && 1 <= delta
    ensures Moved(Popped(s.trees, s.anchor, delta).0, s.AsSeen(), SettledState(s, delta).AsSeen())
  {
    StabilisationIsInvisible(s.trees, s.anchor, delta);
  }

  // If the strict replay of the whole chain has no trouble, then neither has settling, nor any
  // later query of the address: it does not panic, creates no outpoint of the address twice,
  // and the strict replay of the chain that remains has no trouble.
  lemma {:induction false} SettlingStaysUntroubled(s: ChainState, delta: nat, a: Address, network: Network)
    requires WellFormed(s.trees) && 1 <= delta && Untroubled(s.AsSeen(), a, network)
    ensures Settle(s, delta).Some? && NoMarks(SettleMarks(s, delta, network), a)
    ensures Untroubled(Settle(s, delta).value.AsSeen(), a, network)
  {
    SettledStateMoves(s, delta);
    var popped := Popped(s.trees, s.anchor, delta).0;
    if popped.Some? {
      MovedUntroubled(popped.value, s.AsSeen(), SettledState(s, delta).AsSeen(), a, network);
    }
    assert Settle(s, delta) == Some(SettledState(s, delta));
  }

  // For the canister's state: if no index entry of the address is repeated and the replay has
  // no trouble, then no query of the address has, and its methods give the answers that the
  // lemmas on snapshots speak of.
  lemma {:induction false} StateAnswers(state: State, a: Address, minConfirmations: nat)
    requires NoMarks(state.utxos.repeated, a) && Untroubled(state.Seen(), a, state.utxos.network)
    ensures state.QueryClean(a, minConfirmations)
  {
    UntroubledQueries(state.Seen(), a, state.utxos.network, minConfirmations);
  }

  lemma {:induction false} StateIsSeen(state: State)
    ensures state.Seen() == state.View().AsSeen()
  {
  }

  lemma {:induction false} SameOutputsTotal(u: Utxos, v: Utxos)
    requires SameOutputs(u, v)
    ensures Total(u) == Total(v)
  {
    TotalPart(u, v);
    TotalPart(v, u);
  }
}
