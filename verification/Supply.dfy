/** The value held by the set of outputs never exceeds what coinbase transactions created. */
module Supply {
  import opened Bitcoin
  import opened UtxoSets
  import opened TxSteps
  import opened Replay
  import opened Values
  import opened Store
  import opened Queries
  import opened Runs

  // The most that coinbase transactions may ever create, in satoshis.
  const MAX_SUPPLY: nat := 2_100_000_000_000_000

  ghost function SumOutputs(outputs: seq<TxOut>): nat {
    if outputs == [] then 0 else SumOutputs(outputs[..|outputs| - 1]) + outputs[|outputs| - 1].value
  }

  // What the inputs name in the set.
  ghost function SumInputs(u: Utxos, inputs: seq<TxIn>): nat {
    if inputs == [] then 0
    else
      var op := inputs[|inputs| - 1].previousOutput;
      SumInputs(u, inputs[..|inputs| - 1]) + if op in u then u[op].output.value else 0
  }

  ghost function OutputSum(tx: Transaction): nat {
    SumOutputs(tx.output)
  }

  // What a transaction mints.
  ghost function Minted(tx: Transaction): nat {
    if tx.IsCoinBase() then OutputSum(tx) else 0
  }

  // The transaction mints, or pays out at most what it spends.
  ghost predicate Covered(u: Utxos, tx: Transaction) {
    tx.IsCoinBase() || OutputSum(tx) <= Total(At(u, Spent(tx)))
  }

  ghost function MintedByTxs(txs: seq<Transaction>): nat {
    if txs == [] then 0 else Minted(txs[0]) + MintedByTxs(txs[1..])
  }

  ghost predicate CoveredTxs(u: Utxos, txs: seq<Transaction>, height: nat)
    decreases |txs|
  {
    txs == [] || (Covered(u, txs[0]) && CoveredTxs(ApplyTx(u, txs[0], height), txs[1..], height))
  }

  ghost function MintedByChain(chain: seq<Block>): nat {
    if chain == [] then 0 else MintedByTxs(chain[0].txdata) + MintedByChain(chain[1..])
  }

  ghost predicate CoveredChain(u: Utxos, chain: seq<Block>, height: nat)
    decreases |chain|
  {
    chain == [] || (CoveredTxs(u, chain[0].txdata, height) &&
                    CoveredChain(ApplyTxs(u, chain[0].txdata, height), chain[1..], height + 1))
  }

  lemma {:induction false} CreatedSum(tx: Transaction, height: nat)
    ensures Total(Created(tx, height)) == OutputSum(tx)
  {
    CreatedSumUpTo(tx, height, |tx.output|);
    assert tx.output[..|tx.output|] == tx.output;
  }

  lemma {:induction false} CreatedSumUpTo(tx: Transaction, height: nat, n: nat)
    requires n <= |tx.output|
    ensures Total(CreatedUpTo(tx, height, n)) == SumOutputs(tx.output[..n])
  {
    if n == 0 {
      assert CreatedUpTo(tx, height, n) == map[];
    } else {
      var op := OutPoint(tx.Txid(), n - 1);
      CreatedSumUpTo(tx, height, n - 1);
      OneMoreCreated(tx, height, n - 1);
      assert op !in CreatedUpTo(tx, height, n - 1);
      TotalInsert(CreatedUpTo(tx, height, n - 1), op, Utxo(tx.output[n - 1], height));
      assert tx.output[..n][..n - 1] == tx.output[..n - 1];
    }
  }

  lemma {:induction false} SpentSum(u: Utxos, inputs: seq<TxIn>)
    requires InputsPresent(u, inputs)
    ensures Total(At(u, Named(inputs))) == SumInputs(u, inputs)
    decreases |inputs|
  {
    if inputs == [] {
      assert At(u, Named(inputs)) == map[];
    } else {
      var n := |inputs| - 1;
      var op, before := inputs[n].previousOutput, inputs[..n];
      assert forall i | 0 <= i < n :: before[i] == inputs[i];
      SpentSum(u, before);
      NamedLast(inputs);
      assert op !in Named(before);
      TotalInsert(At(u, Named(before)), op, u[op]);
      assert At(u, Named(inputs)) == At(u, Named(before))[op := u[op]];
    }
  }

  lemma {:induction false} NamedLast(inputs: seq<TxIn>)
    requires inputs != []
    ensures Named(inputs) == Named(inputs[..|inputs| - 1]) + {inputs[|inputs| - 1].previousOutput}
  {
    var before := inputs[..|inputs| - 1];
    forall op | op in Named(inputs) ensures op in Named(before) + {inputs[|inputs| - 1].previousOutput} {
      var i :| 0 <= i < |inputs| && inputs[i].previousOutput == op;
      assert i < |before| ==> before[i] == inputs[i];
    }
    forall op | op in Named(before) ensures op in Named(inputs) {
      var i :| 0 <= i < |before| && before[i].previousOutput == op;
      assert inputs[i] == before[i];
    }
  }

  // An ordinary transaction with its inputs present is covered when it pays out at most what
  // they hold.
  lemma {:induction false} CoveredByInputs(u: Utxos, tx: Transaction)
    requires InputsPresent(u, tx.input) && !SpendsNothing(tx)
    ensures Covered(u, tx) <==> SumOutputs(tx.output) <= SumInputs(u, tx.input)
  {
    assert Spent(tx) == Named(tx.input);
    SpentSum(u, tx.input);
  }

  // A strictly accepted transaction that overwrites nothing takes the values of its inputs out
  // of the set, unless it is a coinbase transaction, and puts the values of its outputs in.
  lemma {:induction false} AcceptedBalance(u: Utxos, tx: Transaction, height: nat)
    requires Accepts(u, tx, true) && Clashes(u, tx) == {}
    ensures Total(ApplyTx(u, tx, height)) + (if SpendsNothing(tx) then 0 else SumInputs(u, tx.input))
         == Total(u) + SumOutputs(tx.output)
  {
    ValueConserved(u, tx, height);
    assert At(u - Spent(tx), {}) == map[];
    if SpendsNothing(tx) {
      assert At(u, Spent(tx)) == map[];
    } else {
      assert Spent(tx) == Named(tx.input);
      SpentSum(u, tx.input);
      TotalPart(At(u, Spent(tx)), u);
    }
  }

  // One transaction takes out what it spends and puts in what it pays; outputs that it
  // overwrites are lost.
  lemma {:induction false} ValueConserved(u: Utxos, tx: Transaction, height: nat)
    ensures var kept := u - Spent(tx);
            && Total(ApplyTx(u, tx, height)) + Total(At(kept, Clashes(u, tx)))
               == Total(u) - Total(At(u, Spent(tx))) + OutputSum(tx)
  {
    var kept, created := u - Spent(tx), Created(tx, height);
    ApplyTxParts(u, tx, height);
    CreatedSum(tx, height);
    TotalSplit(u, Spent(tx));
    TotalSplit(kept, Clashes(u, tx));
    Overwritten(u, tx, height);
    TotalUnion(kept - Clashes(u, tx), created);
  }

  lemma {:induction false} Overwritten(u: Utxos, tx: Transaction, height: nat)
    ensures var kept, created := u - Spent(tx), Created(tx, height);
            && kept + created == (kept - Clashes(u, tx)) + created
            && (kept - Clashes(u, tx)).Keys !! created.Keys
  {
    ApplyTxParts(u, tx, height);
  }

  lemma {:induction false} TxsBound(u: Utxos, txs: seq<Transaction>, height: nat)
    requires CoveredTxs(u, txs, height)
    ensures Total(ApplyTxs(u, txs, height)) <= Total(u) + MintedByTxs(txs)
    decreases |txs|
  {
    if txs == [] {
    } else {
      ValueConserved(u, txs[0], height);
      TxsBound(ApplyTx(u, txs[0], height), txs[1..], height);
    }
  }

  lemma {:induction false} ChainBound(u: Utxos, chain: seq<Block>, height: nat)
    requires CoveredChain(u, chain, height)
    ensures Total(ApplyChain(u, chain, height)) <= Total(u) + MintedByChain(chain)
    decreases |chain|
  {
    if chain == [] {
    } else {
      TxsBound(u, chain[0].txdata, height);
      ChainBound(ApplyTxs(u, chain[0].txdata, height), chain[1..], height + 1);
    }
  }

  lemma {:induction false} CoveredPrefix(u: Utxos, chain: seq<Block>, height: nat, n: nat)
    requires n <= |chain| && CoveredChain(u, chain, height)
    ensures CoveredChain(u, chain[..n], height) && MintedByChain(chain[..n]) <= MintedByChain(chain)
    decreases |chain|
  {
    if n == 0 {
    } else {
      assert chain[..n][1..] == chain[1..][..n - 1];
      CoveredPrefix(ApplyTxs(u, chain[0].txdata, height), chain[1..], height + 1, n - 1);
    }
  }

  // No answer holds more than the stable set and the confirmed blocks could.
  lemma {:induction false} AnswerBound(u: Utxos, chain: seq<Block>, first: nat, mainHeight: nat, a: Address, network: Network, minConfirmations: nat)
    requires CoveredChain(u, chain, first)
    ensures Total(AnswerFrom(u, chain, first, mainHeight, a, network, minConfirmations)) <= Total(u) + MintedByChain(chain)
  {
    AnswerIsFull(u, chain, first, mainHeight, a, network, minConfirmations);
    CoveredPrefix(u, chain, first, Confirmed(|chain|, minConfirmations));
    ChainBound(u, ConfirmedPart(chain, minConfirmations), first);
    TotalPart(UtxosFrom(u, chain, first, mainHeight, a, network, minConfirmations), FullView(u, chain, first, minConfirmations));
  }

  // In every run in which no transaction pays out more than it spends, and coinbase
  // transactions create at most the maximal supply, every balance of every address fits in
  // 64 bits.
  lemma {:induction false} BalanceFitsU64(genesis: Block, delta: nat, blocks: seq<Block>, a: Address, network: Network, minConfirmations: nat)
    requires Run(genesis, delta, blocks).Some?
    requires var s, history := Run(genesis, delta, blocks).value, History(genesis, delta, blocks);
             && CoveredTxs(map[], genesis.txdata, 1)
             && CoveredChain(ApplyTxs(map[], genesis.txdata, 1), history, 1)
             && CoveredChain(s.utxos, s.CurrentChain(), s.height + 1)
             && MintedByTxs(genesis.txdata) + MintedByChain(history) + MintedByChain(s.CurrentChain()) <= MAX_SUPPLY
    ensures var s := Run(genesis, delta, blocks).value;
            Total(s.utxos) <= MAX_SUPPLY && Total(AnswerOf(s.AsSeen(), a, network, minConfirmations)) <= MAX_SUPPLY < MAX_U64
  {
    var s, history := Run(genesis, delta, blocks).value, History(genesis, delta, blocks);
    RunRefinesHistory(genesis, delta, blocks);
    TxsBound(map[], genesis.txdata, 1);
    ChainBound(ApplyTxs(map[], genesis.txdata, 1), history, 1);
    AnswerBound(s.utxos, s.CurrentChain(), s.AsSeen().First(), s.AsSeen().MainHeight(), a, network, minConfirmations);
  }
}
