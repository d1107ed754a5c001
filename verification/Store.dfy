/** The whole state of the canister: a stable set of outputs, an anchor, and the unstable
    blocks above it. */
module Store {
  import opened Bitcoin
  import opened BlockTrees
  import opened CurrentChain
  import opened ForestSteps
  import opened Stabilisation
  import opened BlockForests
  import opened UtxoSets
  import opened Replay
  import opened Values

  // ---- The state as a value ----

  datatype ChainState = ChainState(height: nat, anchor: BlockHash, utxos: Utxos, trees: seq<BlockTree>) {
    ghost function CurrentChain(): seq<Block> {
      Chain(trees, anchor)
    }

    ghost function AsSeen(): Snapshot {
      Snapshot(utxos, CurrentChain(), height)
    }

    // All stored outputs carry heights of stable blocks.
    ghost predicate HeightsValid() {
      1 <= height && HeightsWithin(utxos, 1, height)
    }
  }

  // What queries see of a state: the stable set, its height, and the current chain above it.
  datatype Snapshot = Snapshot(utxos: Utxos, chain: seq<Block>, height: nat) {
    function First(): nat {
      height + 1
    }

    function MainHeight(): nat {
      |chain| + height
    }

    ghost predicate HeightsValid() {
      1 <= height && HeightsWithin(utxos, 1, height)
    }
  }

  ghost function Genesis(genesis: Block): ChainState {
    ChainState(1, genesis.Hash(), ApplyTxs(map[], genesis.txdata, 1), [])
  }

  // Moves a stable block, if there is one, from the forest to the stable set. `None` is a
  // panic.
  ghost function Settle(s: ChainState, delta: nat): Option<ChainState> {
    var (popped, trees) := Popped(s.trees, s.anchor, delta);
    match popped
    case None => Some(s.(trees := trees))
    case Some(b) =>
      if AcceptsTxs(s.utxos, b.txdata, s.height, true)
      then Some(ChainState(s.height + 1, b.Hash(), ApplyTxs(s.utxos, b.txdata, s.height), trees))
      else None
  }

  ghost function Insert(s: ChainState, b: Block, delta: nat): Option<ChainState> {
    Settle(s.(trees := Pushed(s.trees, b)), delta)
  }

  lemma {:induction false} SettleKeepsHeights(s: ChainState, delta: nat)
    requires s.HeightsValid()
    ensures Settle(s, delta).Some? ==> Settle(s, delta).value.HeightsValid()
  {
    var popped := Popped(s.trees, s.anchor, delta).0;
    if popped.Some? {
      HeightsTxs(s.utxos, popped.value.txdata, s.height, 1, s.height + 1);
    }
  }

  lemma {:induction false} SettleSome(s: ChainState, delta: nat, b: Block, trees: seq<BlockTree>, network: Network)
    requires Popped(s.trees, s.anchor, delta) == (Some(b), trees)
    ensures Settle(s, delta) ==
            if AcceptsTxs(s.utxos, b.txdata, s.height, true)
            then Some(ChainState(s.height + 1, b.Hash(), ApplyTxs(s.utxos, b.txdata, s.height), trees))
            else None
    ensures SettleMarks(s, delta, network) == MarksOfTxs(s.utxos, b.txdata, s.height, network)
  {
  }

  // The index entries that settling leaves behind by creating unspent outpoints again.
  ghost function SettleMarks(s: ChainState, delta: nat, network: Network): Marks {
    match Popped(s.trees, s.anchor, delta).0
    case None => {}
    case Some(b) => MarksOfTxs(s.utxos, b.txdata, s.height, network)
  }

  ghost function InsertMarks(s: ChainState, b: Block, delta: nat, network: Network): Marks {
    SettleMarks(s.(trees := Pushed(s.trees, b)), delta, network)
  }

  // ---- Queries ----

  // How many blocks of a chain of length `n` have enough confirmations: the i-th has n - i.
  function Confirmed(n: nat, minConfirmations: nat): nat {
    if minConfirmations <= 1 then n
    else if n < minConfirmations - 1 then 0
    else n - (minConfirmations - 1)
  }

  lemma {:induction false} ConfirmedCutoff(n: nat, minConfirmations: nat, i: nat)
    requires i < n
    ensures n - i < minConfirmations <==> Confirmed(n, minConfirmations) <= i
    ensures Confirmed(n, minConfirmations) <= n
  {
  }

  // The outputs with enough confirmations, in a main chain of the given height.
  ghost function Enough(u: Utxos, mainHeight: nat, minConfirmations: nat): Utxos {
    map op | op in u && minConfirmations + u[op].height <= mainHeight + 1 :: u[op]
  }

  // The blocks of a chain with enough confirmations.
  function ConfirmedPart(chain: seq<Block>, minConfirmations: nat): seq<Block> {
    chain[..Confirmed(|chain|, minConfirmations)]
  }

  // The whole set after the sufficiently confirmed blocks of a chain that starts at the given
  // height.
  ghost function FullView(u: Utxos, chain: seq<Block>, first: nat, minConfirmations: nat): Utxos {
    ApplyChain(u, ConfirmedPart(chain, minConfirmations), first)
  }

  // What an address owns: the simple form.
  ghost function UtxosFrom(u: Utxos, chain: seq<Block>, first: nat, mainHeight: nat, a: Address, network: Network, minConfirmations: nat): Utxos {
    Enough(Slice(FullView(u, chain, first, minConfirmations), a, network), mainHeight, minConfirmations)
  }

  // What the canister computes: a replay over the slice of the address only.
  ghost function PartialView(u: Utxos, chain: seq<Block>, first: nat, a: Address, network: Network, minConfirmations: nat): Utxos {
    Slice(ApplyChain(Slice(u, a, network), ConfirmedPart(chain, minConfirmations), first), a, network)
  }

  // Its answer.
  ghost function AnswerFrom(u: Utxos, chain: seq<Block>, first: nat, mainHeight: nat, a: Address, network: Network, minConfirmations: nat): Utxos {
    Enough(PartialView(u, chain, first, a, network, minConfirmations), mainHeight, minConfirmations)
  }

  ghost function AnswerOf(p: Snapshot, a: Address, network: Network, minConfirmations: nat): Utxos {
    AnswerFrom(p.utxos, p.chain, p.First(), p.MainHeight(), a, network, minConfirmations)
  }

  // A replay of the confirmed blocks does not panic, and creates no unspent outpoint of the
  // address again.
  ghost predicate CleanReplay(u: Utxos, chain: seq<Block>, first: nat, minConfirmations: nat, a: Address, network: Network, strict: bool) {
    && AcceptsChain(u, ConfirmedPart(chain, minConfirmations), first, strict)
    && NoMarks(MarksOfChain(u, ConfirmedPart(chain, minConfirmations), first, network), a)
  }

  // The replay that a query performs is clean.
  ghost predicate CleanQuery(p: Snapshot, a: Address, network: Network, minConfirmations: nat) {
    CleanReplay(Slice(p.utxos, a, network), p.chain, p.First(), minConfirmations, a, network, false)
  }

  // It panics.
  ghost predicate PanickingQuery(p: Snapshot, a: Address, network: Network, minConfirmations: nat) {
    !AcceptsChain(Slice(p.utxos, a, network), ConfirmedPart(p.chain, minConfirmations), p.First(), false)
  }

  ghost predicate NoMarks(marks: Marks, a: Address) {
    forall op :: (a, op) !in marks
  }

  /** Applies the transactions of a block in order. */
  method InsertTxs(u: UtxoSet, txs: seq<Transaction>, height: nat) returns (ok: bool)
    requires u.Valid()
    modifies u
    ensures u.Valid()
    ensures ok <==> AcceptsTxs(old(u.utxos), txs, height, u.strict)
    ensures ok ==> u.utxos == ApplyTxs(old(u.utxos), txs, height)
    ensures ok ==> u.repeated == old(u.repeated) + MarksOfTxs(old(u.utxos), txs, height, u.network)
  {
    for i := 0 to |txs|
      invariant u.Valid()
      invariant AcceptsTxs(old(u.utxos), txs[..i], height, u.strict)
      invariant u.utxos == ApplyTxs(old(u.utxos), txs[..i], height)
      invariant u.repeated == old(u.repeated) + MarksOfTxs(old(u.utxos), txs[..i], height, u.network)
    {
      TxsStep(old(u.utxos), txs, height, i, u.strict, u.network);
      var inserted := u.InsertTx(txs[i], height);
      if !inserted {
        return false;
      }
    }
    assert txs[..|txs|] == txs;
    ok := true;
  }

  class State {
    // The height of the latest stable block.
    var height: nat
    // The hash of the latest stable block.
    var latestStableBlockHash: BlockHash
    // The outputs of all stable blocks.
    const utxos: UtxoSet
    // Blocks inserted but not stable yet.
    const unstableBlocks: BlockForest

    ghost predicate Valid()
      reads this, utxos, unstableBlocks
    {
      utxos.Valid() && utxos.strict && View().HeightsValid()
    }

    ghost function View(): ChainState
      reads this, utxos, unstableBlocks
    {
      ChainState(height, latestStableBlockHash, utxos.utxos, unstableBlocks.trees)
    }

    ghost function MainChain(): seq<Block>
      reads this, unstableBlocks
    {
      Chain(unstableBlocks.trees, latestStableBlockHash)
    }

    // What queries see.
    ghost function Seen(): Snapshot
      reads this, utxos, unstableBlocks
    {
      Snapshot(utxos.utxos, MainChain(), height)
    }

    // What the address owns, computed from its slice.
    ghost function Answer(address: Address, minConfirmations: nat): Utxos
      reads this, utxos, unstableBlocks
    {
      AnswerOf(Seen(), address, utxos.network, minConfirmations)
    }

    // The unstrict replay for the address panics.
    ghost predicate QueryPanics(address: Address, minConfirmations: nat)
      reads this, utxos, unstableBlocks
    {
      utxos.Clear(address) && PanickingQuery(Seen(), address, utxos.network, minConfirmations)
    }

    // A query for the address meets no outpoint of that address that was created twice.
    ghost predicate QueryClean(address: Address, minConfirmations: nat)
      reads this, utxos, unstableBlocks
    {
      utxos.Clear(address) &&
      CleanQuery(Seen(), address, utxos.network, minConfirmations)
    }

    constructor Init(delta: nat, network: Network, anchor: BlockHash)
      ensures Valid() && fresh(utxos) && fresh(unstableBlocks)
      ensures View() == ChainState(1, anchor, map[], []) && utxos.repeated == {}
      ensures utxos.network == network && unstableBlocks.delta == delta
    {
      height := 1;
      latestStableBlockHash := anchor;
      utxos := new UtxoSet(true, network);
      unstableBlocks := new BlockForest(delta);
    }

    constructor FromParts(height: nat, anchor: BlockHash, utxos: UtxoSet, forest: BlockForest)
      ensures this.height == height && latestStableBlockHash == anchor
      ensures this.utxos == utxos && unstableBlocks == forest
    {
      this.height := height;
      latestStableBlockHash := anchor;
      this.utxos := utxos;
      unstableBlocks := forest;
    }

    /** A new state whose stable set is that of the genesis block. */
    static method New(delta: nat, network: Network, genesis: Block) returns (ok: bool, s: State)
      ensures fresh(s) && fresh(s.utxos) && fresh(s.unstableBlocks)
      ensures s.utxos.network == network && s.unstableBlocks.delta == delta
      ensures ok <==> AcceptsTxs(map[], genesis.txdata, 1, true)
      ensures ok ==> s.Valid() && s.View() == Genesis(genesis)
      ensures ok ==> s.utxos.repeated == MarksOfTxs(map[], genesis.txdata, 1, network)
    {
      s := new State.Init(delta, network, genesis.Hash());
      ok := InsertTxs(s.utxos, genesis.txdata, 1);
      HeightsTxs(map[], genesis.txdata, 1, 1, 1);
    }

    /** Inserts a block, and then moves at most one block to the stable set. */
    method InsertBlock(b: Block) returns (ok: bool)
      requires Valid()
      modifies this, utxos, unstableBlocks
      ensures ok <==> Insert(old(View()), b, unstableBlocks.delta).Some?
      ensures ok ==> Valid() && View() == Insert(old(View()), b, unstableBlocks.delta).value
      ensures ok ==> utxos.repeated == old(utxos.repeated) + InsertMarks(old(View()), b, unstableBlocks.delta, utxos.network)
    {
      unstableBlocks.Push(b);
      ghost var pushed := View();
      SettleKeepsHeights(pushed, unstableBlocks.delta);
      var popped := unstableBlocks.Pop(latestStableBlockHash);
      if popped.Some? {
        var stable := popped.value;
        PoppedFollowsAnchor(pushed.trees, pushed.anchor, unstableBlocks.delta);
        // The panic on a wrong predecessor cannot happen.
        assert stable.Prev() == latestStableBlockHash;
        SettleSome(pushed, unstableBlocks.delta, stable, unstableBlocks.trees, utxos.network);
        latestStableBlockHash := stable.Hash();
        ok := InsertTxs(utxos, stable.txdata, height);
        height := height + 1;
      } else {
        ok := true;
      }
    }

    /** The height of the tip of the current chain. */
    method MainChainHeight() returns (h: nat)
      ensures h == |MainChain()| + height
    {
      var chain := unstableBlocks.GetCurrentChain(latestStableBlockHash);
      h := |chain| + height;
    }

    /** The unspent outputs of an address, at least `minConfirmations` deep. `ok` is false
        where the source panics. */
    method GetUtxos(address: Address, minConfirmations: nat)
      returns (ok: bool, r: set<(OutPoint, TxOut, nat)>)
      requires Valid()
      ensures QueryClean(address, minConfirmations) ==>
                ok && r == ToSet(Answer(address, minConfirmations))
      ensures QueryPanics(address, minConfirmations) ==> !ok
    {
      var chain := unstableBlocks.GetCurrentChain(latestStableBlockHash);
      var mainHeight := MainChainHeight();
      ok, r := QueryAddress(utxos, address, chain, height + 1, mainHeight, minConfirmations, Seen());
    }

    /** The balance of an address, if it fits in 64 bits. */
    method GetBalance(address: Address, minConfirmations: nat) returns (ok: bool, balance: nat)
      requires Valid()
      ensures QueryClean(address, minConfirmations) ==>
                && (ok <==> Total(Answer(address, minConfirmations)) <= MAX_U64)
                && (ok ==> balance == Total(Answer(address, minConfirmations)))
      ensures QueryPanics(address, minConfirmations) ==> !ok
    {
      balance := 0;
      ghost var answer := Answer(address, minConfirmations);
      var outputs;
      ok, outputs := GetUtxos(address, minConfirmations);
      if !ok {
        return;
      }
      SumIsTotal(answer);
      ok, balance := SumValues(outputs);
    }
  }

  const MAX_U64: nat := 0xFFFF_FFFF_FFFF_FFFF

  /** Adds up the values of the outputs, in whatever order they come; `ok` is false where the
      running sum overflows. */
  method SumValues(outputs: set<(OutPoint, TxOut, nat)>) returns (ok: bool, sum: nat)
    ensures ok <==> Sum(outputs) <= MAX_U64
    ensures ok ==> sum == Sum(outputs)
  {
    sum := 0;
    var rest := outputs;
    while rest != {}
      invariant rest <= outputs && sum + Sum(rest) == Sum(outputs) && sum <= MAX_U64
      decreases |rest|
    {
      var output :| output in rest;
      SumRemove(rest, output);
      if MAX_U64 < sum + output.1.value {
        return false, sum;
      }
      sum := sum + output.1.value;
      rest := rest - {output};
    }
    ok := true;
  }

  /** Answers a query for an address: replays the confirmed blocks of the chain over the
      address's own slice, and takes the slice again. */
  method QueryAddress(utxos: UtxoSet, address: Address, chain: seq<Block>, first: nat, mainHeight: nat, minConfirmations: nat,
                      ghost p: Snapshot)
    returns (ok: bool, r: set<(OutPoint, TxOut, nat)>)
    requires utxos.Valid() && p.HeightsValid()
    requires p.utxos == utxos.utxos && p.chain == chain && p.First() == first && p.MainHeight() == mainHeight
    ensures utxos.Clear(address) && CleanQuery(p, address, utxos.network, minConfirmations) ==>
              ok && r == ToSet(AnswerOf(p, address, utxos.network, minConfirmations))
    ensures utxos.Clear(address) && PanickingQuery(p, address, utxos.network, minConfirmations) ==> !ok
  {
    r := {};
    var addressUtxos;
    ok, addressUtxos := utxos.GetUtxos(address);
    if !ok {
      return;
    }
    ghost var part := addressUtxos.utxos;
    ok := ReplayConfirmed(addressUtxos, chain, first, mainHeight, minConfirmations);
    if !ok {
      return;
    }
    HeightsChain(part, ConfirmedPart(chain, minConfirmations), first, 1, mainHeight);
    var filtered;
    ok, filtered := addressUtxos.GetUtxos(address);
    if !ok {
      return;
    }
    r := Select(filtered.utxos, mainHeight, minConfirmations);
  }

  // The outputs with enough confirmations: the heights never exceed that of the main chain,
  // so that the subtraction is exact.
  function Select(u: Utxos, mainHeight: nat, minConfirmations: nat): (r: set<(OutPoint, TxOut, nat)>)
    requires HeightsWithin(u, 1, mainHeight)
    ensures r == ToSet(Enough(u, mainHeight, minConfirmations))
  {
    SelectIsEnough(u, mainHeight, minConfirmations);
    set op | op in u && (mainHeight - u[op].height) as nat + 1 >= minConfirmations :: (op, u[op].output, u[op].height)
  }

  lemma {:induction false} SelectIsEnough(u: Utxos, mainHeight: nat, minConfirmations: nat)
    requires HeightsWithin(u, 1, mainHeight)
    ensures (set op | op in u && (mainHeight - u[op].height) as nat + 1 >= minConfirmations ::
               (op, u[op].output, u[op].height)) == ToSet(Enough(u, mainHeight, minConfirmations))
  {
    var kept := Enough(u, mainHeight, minConfirmations);
    assert forall op | op in kept :: op in u && kept[op] == u[op];
    forall x | x in ToSet(kept)
      ensures x in set op | op in u && (mainHeight - u[op].height) as nat + 1 >= minConfirmations ::
                (op, u[op].output, u[op].height)
    {
      assert x.0 in u;
    }
    forall op | op in u && (mainHeight - u[op].height) as nat + 1 >= minConfirmations
      ensures (op, u[op].output, u[op].height) in ToSet(kept)
    {
      assert op in kept;
    }
  }

  // The set holds what replaying the first `i` blocks makes of `start`.
  ghost predicate Replayed(u: Utxos, repeated: Marks, network: Network, start: Utxos, marked: Marks, chain: seq<Block>, first: nat, i: nat)
    requires i <= |chain|
  {
    && AcceptsChain(start, chain[..i], first, false)
    && u == ApplyChain(start, chain[..i], first)
    && repeated == marked + MarksOfChain(start, chain[..i], first, network)
  }

  /** Replays the i-th block of the chain. */
  method ReplayBlock(u: UtxoSet, chain: seq<Block>, first: nat, i: nat, ghost start: Utxos, ghost marked: Marks)
    returns (ok: bool)
    requires u.Valid() && !u.strict && i < |chain|
    requires Replayed(u.utxos, u.repeated, u.network, start, marked, chain, first, i)
    modifies u
    ensures u.Valid()
    ensures ok ==> Replayed(u.utxos, u.repeated, u.network, start, marked, chain, first, i + 1)
    ensures !ok ==> !AcceptsChain(start, chain, first, false)
  {
    ghost var before, repeated := u.utxos, u.repeated;
    var height := first + i;
    ok := InsertTxs(u, chain[i].txdata, height);
    if ok {
      Advanced(start, marked, chain, first, i, height, before, repeated, u.utxos, u.repeated, u.network);
    } else {
      Refused(start, marked, chain, first, i, height, before, repeated, u.network);
    }
  }

  /** Replays the blocks of the chain that have enough confirmations, from the height `first`
      on, and stops at the first block that has too few. */
  method ReplayConfirmed(u: UtxoSet, chain: seq<Block>, first: nat, mainHeight: nat, minConfirmations: nat)
    returns (ok: bool)
    requires u.Valid() && !u.strict && 1 <= first && mainHeight + 1 == first + |chain|
    modifies u
    ensures u.Valid()
    ensures ok <==> AcceptsChain(old(u.utxos), ConfirmedPart(chain, minConfirmations), first, false)
    ensures ok ==> u.utxos == ApplyChain(old(u.utxos), ConfirmedPart(chain, minConfirmations), first)
    ensures ok ==> u.repeated == old(u.repeated) +
                                 MarksOfChain(old(u.utxos), ConfirmedPart(chain, minConfirmations), first, u.network)
  {
    ghost var start, marked := u.utxos, u.repeated;
    var confirmed := ConfirmedPart(chain, minConfirmations);
    var i := 0;
    while i < |chain|
      invariant i <= |confirmed| && u.Valid()
      invariant Replayed(u.utxos, u.repeated, u.network, start, marked, confirmed, first, i)
    {
      var blockHeight := first + i;
      var confirmations: nat := mainHeight - blockHeight + 1;
      ConfirmedCutoff(|chain|, minConfirmations, i);
      if confirmations < minConfirmations {
        // The remaining blocks have fewer confirmations still.
        break;
      }
      ok := ReplayBlock(u, confirmed, first, i, start, marked);
      if !ok {
        return;
      }
      i := i + 1;
    }
    assert confirmed[..i] == confirmed;
    ok := true;
  }

  lemma {:induction false} Advanced(start: Utxos, marked: Marks, chain: seq<Block>, first: nat, i: nat, height: nat,
                                    before: Utxos, repeated: Marks, after: Utxos, repeatedAfter: Marks, network: Network)
    requires i < |chain| && height == first + i && Replayed(before, repeated, network, start, marked, chain, first, i)
    requires AcceptsTxs(before, chain[i].txdata, height, false) && after == ApplyTxs(before, chain[i].txdata, height)
    requires repeatedAfter == repeated + MarksOfTxs(before, chain[i].txdata, height, network)
    ensures Replayed(after, repeatedAfter, network, start, marked, chain, first, i + 1)
  {
    assert chain[..i + 1] == chain[..i] + [chain[i]];
    ReplayedMore(start, chain[..i], chain[i], first, height, before, network);
  }

  lemma {:induction false} ReplayedMore(start: Utxos, chain: seq<Block>, b: Block, first: nat, height: nat, before: Utxos, network: Network)
    requires before == ApplyChain(start, chain, first) && height == first + |chain|
    ensures AcceptsChain(start, chain + [b], first, false) <==>
            AcceptsChain(start, chain, first, false) && AcceptsTxs(before, b.txdata, height, false)
    ensures ApplyChain(start, chain + [b], first) == ApplyTxs(before, b.txdata, height)
    ensures MarksOfChain(start, chain + [b], first, network) ==
            MarksOfChain(start, chain, first, network) + MarksOfTxs(before, b.txdata, height, network)
  {
    ChainSnoc(start, chain, first, b, false, network);
  }

  lemma {:induction false} Refused(start: Utxos, marked: Marks, chain: seq<Block>, first: nat, i: nat, height: nat,
                                   before: Utxos, repeated: Marks, network: Network)
    requires i < |chain| && height == first + i && Replayed(before, repeated, network, start, marked, chain, first, i)
    requires !AcceptsTxs(before, chain[i].txdata, height, false)
    ensures !AcceptsChain(start, chain, first, false)
  {
    assert chain[..i + 1] == chain[..i] + [chain[i]];
    ReplayedMore(start, chain[..i], chain[i], first, height, before, network);
    if AcceptsChain(start, chain, first, false) {
      ChainPrefix(start, chain, first, i + 1, false, network);
    }
  }
}
