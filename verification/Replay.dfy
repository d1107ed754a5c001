/** Replaying transactions over a plain set: what a replay over one address's slice says about
    a replay over the whole set, and what heights do not influence. */
module Replay {
  import opened Bitcoin
  import opened UtxoSets

  // ---- Replays ----

  ghost function ApplyTxs(u: Utxos, txs: seq<Transaction>, height: nat): Utxos
    decreases |txs|
  {
    if txs == [] then u else ApplyTxs(ApplyTx(u, txs[0], height), txs[1..], height)
  }

  ghost predicate AcceptsTxs(u: Utxos, txs: seq<Transaction>, height: nat, strict: bool)
    decreases |txs|
  {
    txs == [] || (Accepts(u, txs[0], strict) && AcceptsTxs(ApplyTx(u, txs[0], height), txs[1..], height, strict))
  }

  // The index entries that a replay leaves behind by creating unspent outpoints again.
  ghost function MarksOfTxs(u: Utxos, txs: seq<Transaction>, height: nat, network: Network): Marks
    decreases |txs|
  {
    if txs == [] then {}
    else MarksOf(u, txs[0], network) + MarksOfTxs(ApplyTx(u, txs[0], height), txs[1..], height, network)
  }

  // Replays blocks; the first one is at the given height.
  ghost function ApplyChain(u: Utxos, chain: seq<Block>, height: nat): Utxos
    decreases |chain|
  {
    if chain == [] then u else ApplyChain(ApplyTxs(u, chain[0].txdata, height), chain[1..], height + 1)
  }

  ghost predicate AcceptsChain(u: Utxos, chain: seq<Block>, height: nat, strict: bool)
    decreases |chain|
  {
    chain == [] || (AcceptsTxs(u, chain[0].txdata, height, strict) &&
                    AcceptsChain(ApplyTxs(u, chain[0].txdata, height), chain[1..], height + 1, strict))
  }

  ghost function MarksOfChain(u: Utxos, chain: seq<Block>, height: nat, network: Network): Marks
    decreases |chain|
  {
    if chain == [] then {}
    else MarksOfTxs(u, chain[0].txdata, height, network) +
         MarksOfChain(ApplyTxs(u, chain[0].txdata, height), chain[1..], height + 1, network)
  }

  lemma {:induction false} TxsSnoc(u: Utxos, txs: seq<Transaction>, height: nat, tx: Transaction, strict: bool, network: Network)
    ensures ApplyTxs(u, txs + [tx], height) == ApplyTx(ApplyTxs(u, txs, height), tx, height)
    ensures AcceptsTxs(u, txs + [tx], height, strict) <==>
            AcceptsTxs(u, txs, height, strict) && Accepts(ApplyTxs(u, txs, height), tx, strict)
    ensures MarksOfTxs(u, txs + [tx], height, network) ==
            MarksOfTxs(u, txs, height, network) + MarksOf(ApplyTxs(u, txs, height), tx, network)
    decreases |txs|
  {
    if txs == [] {
      assert (txs + [tx])[1..] == [];
    } else {
      assert (txs + [tx])[1..] == txs[1..] + [tx];
      TxsSnoc(ApplyTx(u, txs[0], height), txs[1..], height, tx, strict, network);
    }
  }

  lemma {:induction false} ChainSnoc(u: Utxos, chain: seq<Block>, height: nat, b: Block, strict: bool, network: Network)
    ensures var v := ApplyChain(u, chain, height);
            && ApplyChain(u, chain + [b], height) == ApplyTxs(v, b.txdata, height + |chain|)
            && (AcceptsChain(u, chain + [b], height, strict) <==>
                AcceptsChain(u, chain, height, strict) && AcceptsTxs(v, b.txdata, height + |chain|, strict))
            && MarksOfChain(u, chain + [b], height, network) ==
               MarksOfChain(u, chain, height, network) + MarksOfTxs(v, b.txdata, height + |chain|, network)
    decreases |chain|
  {
    if chain == [] {
      assert (chain + [b])[1..] == [];
    } else {
      assert (chain + [b])[1..] == chain[1..] + [b];
      ChainSnoc(ApplyTxs(u, chain[0].txdata, height), chain[1..], height + 1, b, strict, network);
    }
  }

  // A replay that is not accepted up to some point is not accepted at all.
  lemma {:induction false} TxsPrefix(u: Utxos, txs: seq<Transaction>, height: nat, n: nat, strict: bool)
    requires n <= |txs| && AcceptsTxs(u, txs, height, strict)
    ensures AcceptsTxs(u, txs[..n], height, strict)
    decreases |txs|
  {
    if n == 0 {
    } else {
      assert txs[..n][1..] == txs[1..][..n - 1];
      TxsPrefix(ApplyTx(u, txs[0], height), txs[1..], height, n - 1, strict);
    }
  }

  lemma {:induction false} ChainPrefix(u: Utxos, chain: seq<Block>, height: nat, n: nat, strict: bool, network: Network)
    requires n <= |chain| && AcceptsChain(u, chain, height, strict)
    ensures AcceptsChain(u, chain[..n], height, strict)
    ensures MarksOfChain(u, chain[..n], height, network) <= MarksOfChain(u, chain, height, network)
    decreases |chain|
  {
    if n == 0 {
    } else {
      assert chain[..n][1..] == chain[1..][..n - 1];
      ChainPrefix(ApplyTxs(u, chain[0].txdata, height), chain[1..], height + 1, n - 1, strict, network);
    }
  }

  // One transaction more.
  lemma {:induction false} TxsStep(u: Utxos, txs: seq<Transaction>, height: nat, i: nat, strict: bool, network: Network)
    requires i < |txs| && AcceptsTxs(u, txs[..i], height, strict)
    ensures var v := ApplyTxs(u, txs[..i], height);
            && ApplyTxs(u, txs[..i + 1], height) == ApplyTx(v, txs[i], height)
            && (AcceptsTxs(u, txs[..i + 1], height, strict) <==> Accepts(v, txs[i], strict))
            && MarksOfTxs(u, txs[..i + 1], height, network) == MarksOfTxs(u, txs[..i], height, network) + MarksOf(v, txs[i], network)
            && (AcceptsTxs(u, txs, height, strict) ==> Accepts(v, txs[i], strict))
  {
    assert txs[..i + 1] == txs[..i] + [txs[i]];
    TxsSnoc(u, txs[..i], height, txs[i], strict, network);
    if AcceptsTxs(u, txs, height, strict) {
      TxsPrefix(u, txs, height, i + 1, strict);
    }
  }

  // ---- A replay over one address's slice ----

  // `part` is a part of `full` that has everything of the address.
  ghost predicate Covers(part: Utxos, full: Utxos, a: Address, network: Network) {
    && (forall op | op in part :: op in full && part[op] == full[op])
    && (forall op | op in full && AddressOf(full[op].output, network) == Some(a) :: op in part)
  }

  lemma {:induction false} CoversTx(part: Utxos, full: Utxos, a: Address, network: Network, tx: Transaction, height: nat)
    requires Covers(part, full, a, network)
    ensures Covers(ApplyTx(part, tx, height), ApplyTx(full, tx, height), a, network)
  {
  }

  lemma {:induction false} CoversTrouble(part: Utxos, full: Utxos, a: Address, network: Network, tx: Transaction)
    requires Covers(part, full, a, network)
    ensures MarksOf(part, tx, network) <= MarksOf(full, tx, network)
    ensures Accepts(full, tx, true) ==> Accepts(part, tx, false)
  {
    assert Clashes(part, tx) <= Clashes(full, tx);
    forall m | m in MarksOf(part, tx, network) ensures m in MarksOf(full, tx, network) {
      assert m.1 in Clashes(part, tx) && part[m.1] == full[m.1];
    }
  }

  lemma {:induction false} CoversTxs(part: Utxos, full: Utxos, a: Address, network: Network, txs: seq<Transaction>, height: nat)
    requires Covers(part, full, a, network)
    ensures Covers(ApplyTxs(part, txs, height), ApplyTxs(full, txs, height), a, network)
    ensures MarksOfTxs(part, txs, height, network) <= MarksOfTxs(full, txs, height, network)
    ensures AcceptsTxs(full, txs, height, true) ==> AcceptsTxs(part, txs, height, false)
    decreases |txs|
  {
    if txs == [] {
    } else {
      CoversTx(part, full, a, network, txs[0], height);
      CoversTrouble(part, full, a, network, txs[0]);
      CoversTxs(ApplyTx(part, txs[0], height), ApplyTx(full, txs[0], height), a, network, txs[1..], height);
    }
  }

  lemma {:induction false} CoversChain(part: Utxos, full: Utxos, a: Address, network: Network, chain: seq<Block>, height: nat)
    requires Covers(part, full, a, network)
    ensures Covers(ApplyChain(part, chain, height), ApplyChain(full, chain, height), a, network)
    ensures MarksOfChain(part, chain, height, network) <= MarksOfChain(full, chain, height, network)
    ensures AcceptsChain(full, chain, height, true) ==> AcceptsChain(part, chain, height, false)
    decreases |chain|
  {
    if chain == [] {
    } else {
      var txs := chain[0].txdata;
      CoversTxs(part, full, a, network, txs, height);
      CoversChain(ApplyTxs(part, txs, height), ApplyTxs(full, txs, height), a, network, chain[1..], height + 1);
    }
  }

  lemma {:induction false} SliceCovers(u: Utxos, a: Address, network: Network)
    ensures Covers(Slice(u, a, network), u, a, network)
  {
  }

  lemma {:induction false} CoversSameSlice(part: Utxos, full: Utxos, a: Address, network: Network)
    requires Covers(part, full, a, network)
    ensures Slice(part, a, network) == Slice(full, a, network)
  {
  }

  // Replaying blocks over the slice of an address, without insisting that inputs are present,
  // gives the address the same outputs as replaying them strictly over the whole set; and if
  // that does not panic, neither does the partial replay.
  lemma {:induction false} PartialReplayRefinesFull(u: Utxos, a: Address, network: Network, chain: seq<Block>, height: nat)
    ensures Slice(ApplyChain(Slice(u, a, network), chain, height), a, network)
         == Slice(ApplyChain(u, chain, height), a, network)
    ensures AcceptsChain(u, chain, height, true) ==> AcceptsChain(Slice(u, a, network), chain, height, false)
    ensures MarksOfChain(Slice(u, a, network), chain, height, network) <= MarksOfChain(u, chain, height, network)
  {
    SliceCovers(u, a, network);
    CoversChain(Slice(u, a, network), u, a, network, chain, height);
    CoversSameSlice(ApplyChain(Slice(u, a, network), chain, height), ApplyChain(u, chain, height), a, network);
  }

  // ---- Heights ----

  // The same outputs, at whatever heights.
  ghost predicate SameOutputs(u: Utxos, v: Utxos) {
    u.Keys == v.Keys && forall op | op in u :: u[op].output == v[op].output
  }

  lemma {:induction false} SameOutputsTx(u: Utxos, v: Utxos, tx: Transaction, h: nat, k: nat)
    requires SameOutputs(u, v)
    ensures SameOutputs(ApplyTx(u, tx, h), ApplyTx(v, tx, k))
  {
  }

  lemma {:induction false} SameTroubleTx(u: Utxos, v: Utxos, tx: Transaction, strict: bool, network: Network)
    requires SameOutputs(u, v)
    ensures Accepts(u, tx, strict) <==> Accepts(v, tx, strict)
    ensures MarksOf(u, tx, network) == MarksOf(v, tx, network)
  {
    assert Clashes(u, tx) == Clashes(v, tx);
  }

  lemma {:induction false} SameOutputsTxs(u: Utxos, v: Utxos, txs: seq<Transaction>, h: nat, k: nat)
    requires SameOutputs(u, v)
    ensures SameOutputs(ApplyTxs(u, txs, h), ApplyTxs(v, txs, k))
    decreases |txs|
  {
    if txs == [] {
    } else {
      SameOutputsTx(u, v, txs[0], h, k);
      SameOutputsTxs(ApplyTx(u, txs[0], h), ApplyTx(v, txs[0], k), txs[1..], h, k);
    }
  }

  lemma {:induction false} SameTroubleTxs(u: Utxos, v: Utxos, txs: seq<Transaction>, h: nat, k: nat, strict: bool, network: Network)
    requires SameOutputs(u, v)
    ensures AcceptsTxs(u, txs, h, strict) <==> AcceptsTxs(v, txs, k, strict)
    ensures MarksOfTxs(u, txs, h, network) == MarksOfTxs(v, txs, k, network)
    decreases |txs|
  {
    if txs == [] {
    } else {
      SameTroubleTx(u, v, txs[0], strict, network);
      SameOutputsTx(u, v, txs[0], h, k);
      SameTroubleTxs(ApplyTx(u, txs[0], h), ApplyTx(v, txs[0], k), txs[1..], h, k, strict, network);
    }
  }

  lemma {:induction false} SameOutputsChain(u: Utxos, v: Utxos, chain: seq<Block>, h: nat, k: nat)
    requires SameOutputs(u, v)
    ensures SameOutputs(ApplyChain(u, chain, h), ApplyChain(v, chain, k))
    decreases |chain|
  {
    if chain == [] {
    } else {
      SameOutputsTxs(u, v, chain[0].txdata, h, k);
      SameOutputsChain(ApplyTxs(u, chain[0].txdata, h), ApplyTxs(v, chain[0].txdata, k), chain[1..], h + 1, k + 1);
    }
  }

  // Nor do heights influence whether a replay panics, or what it creates again.
  lemma {:induction false} SameTroubleChain(u: Utxos, v: Utxos, chain: seq<Block>, h: nat, k: nat, strict: bool, network: Network)
    requires SameOutputs(u, v)
    ensures AcceptsChain(u, chain, h, strict) <==> AcceptsChain(v, chain, k, strict)
    ensures MarksOfChain(u, chain, h, network) == MarksOfChain(v, chain, k, network)
    decreases |chain|
  {
    if chain == [] {
    } else {
      var txs := chain[0].txdata;
      SameTroubleTxs(u, v, txs, h, k, strict, network);
      SameOutputsTxs(u, v, txs, h, k);
      SameTroubleChain(ApplyTxs(u, txs, h), ApplyTxs(v, txs, k), chain[1..], h + 1, k + 1, strict, network);
    }
  }

  ghost predicate HeightsWithin(u: Utxos, low: nat, high: nat) {
    forall op | op in u :: low <= u[op].height <= high
  }

  lemma {:induction false} HeightsTxs(u: Utxos, txs: seq<Transaction>, height: nat, low: nat, high: nat)
    requires HeightsWithin(u, low, high) && low <= height <= high
    ensures HeightsWithin(ApplyTxs(u, txs, height), low, high)
    decreases |txs|
  {
    if txs == [] {
    } else {
      HeightsTxs(ApplyTx(u, txs[0], height), txs[1..], height, low, high);
    }
  }

  lemma {:induction false} HeightsChain(u: Utxos, chain: seq<Block>, height: nat, low: nat, high: nat)
    requires HeightsWithin(u, low, high) && low <= height && height + |chain| <= high + 1
    ensures HeightsWithin(ApplyChain(u, chain, height), low, high)
    decreases |chain|
  {
    if chain == [] {
    } else {
      HeightsTxs(u, chain[0].txdata, height, low, high);
      HeightsChain(ApplyTxs(u, chain[0].txdata, height), chain[1..], height + 1, low, high);
    }
  }
}
