/** Whole runs: inserting any sequence of blocks into a new state. */
module Runs {
  import opened Bitcoin
  import opened BlockTrees
  import opened CurrentChain
  import opened ForestSteps
  import opened Stabilisation
  import opened Pushing
  import opened PushOrder
  import opened UtxoSets
  import opened Replay
  import opened Values
  import opened Store
  import opened Queries

  // The state after creating it and inserting blocks in order; `None` after a panic.
  ghost function Run(genesis: Block, delta: nat, blocks: seq<Block>): Option<ChainState> {
    if blocks == [] then
      if AcceptsTxs(map[], genesis.txdata, 1, true) then Some(Genesis(genesis)) else None
    else
      match Run(genesis, delta, blocks[..|blocks| - 1])
      case Some(s) => Insert(s, blocks[|blocks| - 1], delta)
      case None => None
  }

  ghost function PushedState(s: ChainState, b: Block): ChainState {
    s.(trees := Pushed(s.trees, b))
  }

  // The block that inserting `b` settles, if any.
  ghost function SettledBlock(s: ChainState, b: Block, delta: nat): seq<Block> {
    match Popped(Pushed(s.trees, b), s.anchor, delta).0
    case Some(stable) => [stable]
    case None => []
  }

  // All blocks settled by the run, in order.
  ghost function History(genesis: Block, delta: nat, blocks: seq<Block>): seq<Block> {
    if blocks == [] then []
    else
      var before := blocks[..|blocks| - 1];
      History(genesis, delta, before) +
      match Run(genesis, delta, before)
      case Some(s) => SettledBlock(s, blocks[|blocks| - 1], delta)
      case None => []
  }

  // The hash of the block before index `i` of the chain, where `h` precedes the first block.
  ghost function HashBefore(h: BlockHash, chain: seq<Block>, i: nat): BlockHash
    requires i <= |chain|
  {
    if i == 0 then h else chain[i - 1].Hash()
  }

  ghost predicate FollowsFrom(h: BlockHash, chain: seq<Block>) {
    forall i: nat | i < |chain| :: chain[i].Prev() == HashBefore(h, chain, i)
  }

  ghost function TipHash(h: BlockHash, chain: seq<Block>): BlockHash {
    HashBefore(h, chain, |chain|)
  }

  // ---- The history of a run ----

  // `s` is what remains after settling `history` on top of the genesis block.
  ghost predicate Refines(s: ChainState, genesis: Block, history: seq<Block>) {
    && FollowsFrom(genesis.Hash(), history)
    && s.anchor == TipHash(genesis.Hash(), history)
    && s.height == |history| + 1
    && AcceptsChain(ApplyTxs(map[], genesis.txdata, 1), history, 1, true)
    && s.utxos == ApplyChain(ApplyTxs(map[], genesis.txdata, 1), history, 1)
    && s.HeightsValid()
  }

  lemma {:induction false} InsertRefines(s: ChainState, t: ChainState, b: Block, delta: nat, genesis: Block, history: seq<Block>)
    requires Refines(s, genesis, history) && Insert(s, b, delta) == Some(t)
    ensures Refines(t, genesis, history + SettledBlock(s, b, delta))
  {
    var pushed := PushedState(s, b);
    SettleKeepsHeights(pushed, delta);
    match Popped(pushed.trees, s.anchor, delta).0 {
      case Some(stable) =>
        PoppedFollowsAnchor(pushed.trees, s.anchor, delta);
        SettleRefines(s, t, stable, genesis, history);
      case None =>
        assert history + [] == history;
    }
  }

  lemma {:induction false} SettleRefines(s: ChainState, t: ChainState, stable: Block, genesis: Block, history: seq<Block>)
    requires Refines(s, genesis, history) && stable.Prev() == s.anchor
    requires AcceptsTxs(s.utxos, stable.txdata, s.height, true) && t.HeightsValid()
    requires t.height == s.height + 1 && t.anchor == stable.Hash()
    requires t.utxos == ApplyTxs(s.utxos, stable.txdata, s.height)
    ensures Refines(t, genesis, history + [stable])
  {
    FollowsSnoc(genesis.Hash(), history, stable);
    ReplaySnoc(ApplyTxs(map[], genesis.txdata, 1), s.utxos, history, stable, s.height);
  }

  lemma {:induction false} ReplaySnoc(u: Utxos, settled: Utxos, history: seq<Block>, stable: Block, h: nat)
    requires AcceptsChain(u, history, 1, true) && settled == ApplyChain(u, history, 1) && h == 1 + |history|
    requires AcceptsTxs(settled, stable.txdata, h, true)
    ensures AcceptsChain(u, history + [stable], 1, true)
    ensures ApplyChain(u, history + [stable], 1) == ApplyTxs(settled, stable.txdata, h)
  {
    ChainSnoc(u, history, 1, stable, true, Mainnet);
  }

  lemma {:induction false} FollowsSnoc(h: BlockHash, chain: seq<Block>, b: Block)
    requires FollowsFrom(h, chain) && b.Prev() == TipHash(h, chain)
    ensures FollowsFrom(h, chain + [b]) && TipHash(h, chain + [b]) == b.Hash()
  {
    var longer := chain + [b];
    forall i: nat | i < |longer| ensures longer[i].Prev() == HashBefore(h, longer, i) {
      FollowsAt(h, chain, b, i);
    }
  }

  lemma {:induction false} FollowsAt(h: BlockHash, chain: seq<Block>, b: Block, i: nat)
    requires i <= |chain| && if i < |chain| then chain[i].Prev() == HashBefore(h, chain, i) else b.Prev() == TipHash(h, chain)
    ensures (chain + [b])[i].Prev() == HashBefore(h, chain + [b], i)
  {
  }

  // Every run refines a simple history: the settled blocks are linked from genesis to the
  // anchor, their number is the height, and the stable set is their replay, the k-th block at
  // height k.
  lemma {:induction false} RunRefinesHistory(genesis: Block, delta: nat, blocks: seq<Block>)
    requires Run(genesis, delta, blocks).Some?
    ensures Refines(Run(genesis, delta, blocks).value, genesis, History(genesis, delta, blocks))
  {
    if blocks == [] {
      HeightsTxs(map[], genesis.txdata, 1, 1, 1);
    } else {
      var before, b := blocks[..|blocks| - 1], blocks[|blocks| - 1];
      var s := Run(genesis, delta, before).value;
      RunRefinesHistory(genesis, delta, before);
      InsertRefines(s, Run(genesis, delta, blocks).value, b, delta, genesis, History(genesis, delta, before));
    }
  }

  // ---- Runs whose forest stays well formed ----

  // The forest is well formed, ranks grow along its links, and the anchor is not in it.
  ghost predicate Sound(s: ChainState, rank: BlockHash -> nat) {
    WellFormed(s.trees) && Ranked(s.trees, rank) && !Has(s.trees, s.anchor)
  }

  // A block that may be inserted: it ranks above its predecessor, is not the anchor, is no
  // other block than the one with its hash in the forest, and at most one tree waits for it.
  ghost predicate Insertable(s: ChainState, b: Block, rank: BlockHash -> nat) {
    && rank(b.Prev()) < rank(b.Hash()) && b.Hash() != s.anchor
    && (Has(s.trees, b.Hash()) ==> b in Blocks(s.trees))
    && Waiting(s.trees, b.Hash()) <= 1
  }

  ghost predicate GoodRun(genesis: Block, delta: nat, blocks: seq<Block>, rank: BlockHash -> nat) {
    blocks == [] ||
    var before := blocks[..|blocks| - 1];
    && GoodRun(genesis, delta, before, rank)
    && match Run(genesis, delta, before)
       case Some(s) => Insertable(s, blocks[|blocks| - 1], rank)
       case None => true
  }

  lemma {:induction false} PushKeepsSound(s: ChainState, b: Block, rank: BlockHash -> nat)
    requires Sound(s, rank) && Insertable(s, b, rank)
    ensures Sound(PushedState(s, b), rank)
  {
    if Has(s.trees, b.Hash()) {
      PushAgainClosed(s.trees, b);
    } else {
      PushConserves(s.trees, b);
      NoCycle(s.trees, b, rank);
      PushKeepsClosed(s.trees, b);
      PushCount(s.trees, b, s.anchor);
    }
  }

  lemma {:induction false} PopKeepsRanked(ts: seq<BlockTree>, anchor: BlockHash, delta: nat, rank: BlockHash -> nat)
    requires WellFormed(ts) && Ranked(ts, rank)
    ensures Ranked(Popped(ts, anchor, delta).1, rank)
  {
    var r := Popped(ts, anchor, delta).1;
    forall b | b in Blocks(r) ensures b in Blocks(ts) {
      PopBlocks(ts, anchor, delta, b);
    }
  }

  // A pop creates no block.
  lemma {:induction false} PopBlocks(ts: seq<BlockTree>, anchor: BlockHash, delta: nat, b: Block)
    ensures Blocks(Popped(ts, anchor, delta).1)[b] <= Blocks(ts)[b]
  {
    PopAccount(ts, anchor, delta);
  }

  lemma {:induction false} SettleKeepsSound(s: ChainState, t: ChainState, delta: nat, rank: BlockHash -> nat)
    requires Sound(s, rank) && Settle(s, delta) == Some(t)
    ensures Sound(t, rank)
  {
    PopKeepsRanked(s.trees, s.anchor, delta, rank);
    if Popped(s.trees, s.anchor, delta).0.Some? {
      PopSomething(s.trees, s.anchor, delta);
    } else {
      PopNothing(s.trees, s.anchor, delta);
    }
  }

  // Every state of a good run is sound.
  lemma {:induction false} GoodRunIsSound(genesis: Block, delta: nat, blocks: seq<Block>, rank: BlockHash -> nat)
    requires GoodRun(genesis, delta, blocks, rank) && Run(genesis, delta, blocks).Some?
    ensures Sound(Run(genesis, delta, blocks).value, rank)
  {
    if blocks == [] {
    } else {
      var before, b := blocks[..|blocks| - 1], blocks[|blocks| - 1];
      var s := Run(genesis, delta, before).value;
      GoodRunIsSound(genesis, delta, before, rank);
      PushKeepsSound(s, b, rank);
      SettleKeepsSound(PushedState(s, b), Run(genesis, delta, blocks).value, delta, rank);
    }
  }

  // In a good run with a positive delta, settling a block shows in no query with at most as many
  // confirmations as the current chain has blocks: when the strict replay of the chain has no
  // trouble just after the push, settling does not panic, the main chain keeps its height, every
  // address gets the same answer before and after, and the replay goes on having no trouble.
  lemma {:induction false} InsertShowsOnlyThePush(genesis: Block, delta: nat, blocks: seq<Block>, rank: BlockHash -> nat,
                                                  a: Address, network: Network, minConfirmations: nat)
    requires blocks != [] && 1 <= delta && GoodRun(genesis, delta, blocks, rank)
    requires Run(genesis, delta, blocks[..|blocks| - 1]).Some?
    requires var pushed := PushedState(Run(genesis, delta, blocks[..|blocks| - 1]).value, blocks[|blocks| - 1]).AsSeen();
             Untroubled(pushed, a, network) && minConfirmations <= |pushed.chain|
    ensures Run(genesis, delta, blocks).Some?
    ensures SettledUnseen(PushedState(Run(genesis, delta, blocks[..|blocks| - 1]).value, blocks[|blocks| - 1]).AsSeen(),
                          Run(genesis, delta, blocks).value.AsSeen(), a, network, minConfirmations)
  {
    var before, b := blocks[..|blocks| - 1], blocks[|blocks| - 1];
    var s := Run(genesis, delta, before).value;
    GoodRunIsSound(genesis, delta, before, rank);
    RunRefinesHistory(genesis, delta, before);
    PushKeepsSound(s, b, rank);
    SettlingShowsNothing(PushedState(s, b), delta, a, network, minConfirmations);
    assert Run(genesis, delta, blocks) == Settle(PushedState(s, b), delta);
  }

  // Main chain height, answers and balances are the same, and the replay has no trouble after.
  ghost predicate SettledUnseen(p: Snapshot, r: Snapshot, a: Address, network: Network, minConfirmations: nat) {
    && r.MainHeight() == p.MainHeight() && Untroubled(r, a, network)
    && SameAnswers(AnswerOf(p, a, network, minConfirmations), AnswerOf(r, a, network, minConfirmations))
  }

  lemma {:induction false} SettlingShowsNothing(s: ChainState, delta: nat, a: Address, network: Network, minConfirmations: nat)
    requires s.AsSeen().HeightsValid() && WellFormed(s.trees) && 1 <= delta
    requires Untroubled(s.AsSeen(), a, network) && minConfirmations <= |s.AsSeen().chain|
    ensures Settle(s, delta).Some?
    ensures SettledUnseen(s.AsSeen(), Settle(s, delta).value.AsSeen(), a, network, minConfirmations)
  {
    SettlingStaysUntroubled(s, delta, a, network);
    SettlingKeepsView(s, Settle(s, delta).value, delta, minConfirmations);
    SettlingKeepsBalances(s, Settle(s, delta).value, delta, a, network, minConfirmations);
  }
}
