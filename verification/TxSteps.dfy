/** One transaction, input by input and output by output: an account of what inserting it does
    that is independent of the sets of spent and created outpoints. */
module TxSteps {
  import opened Bitcoin
  import opened UtxoSets

  // Removes the outputs that the inputs name, one after the other. `None` is a panic: a strict
  // set insists that each output is there when its turn comes.
  ghost function SpendAll(u: Utxos, inputs: seq<TxIn>, strict: bool): Option<Utxos>
    decreases |inputs|
  {
    if inputs == [] then Some(u)
    else
      var op := inputs[0].previousOutput;
      if op in u then SpendAll(u - {op}, inputs[1..], strict)
      else if strict then None
      else SpendAll(u, inputs[1..], strict)
  }

  // Adds the outputs from index `i` on, one after the other. `None` is a panic: an outpoint
  // that is there already may only be overwritten for the two exempt transactions.
  ghost function CreateFrom(u: Utxos, tx: Transaction, height: nat, i: nat): Option<Utxos>
    requires i <= |tx.output|
    decreases |tx.output| - i
  {
    if i == |tx.output| then Some(u)
    else
      var op := OutPoint(TXID(tx), i);
      if op in u && TXID(tx) !in DUPLICATE_TX_IDS then None
      else CreateFrom(u[op := Utxo(tx.output[i], height)], tx, height, i + 1)
  }

  // A transaction whose only input names the null outpoint spends nothing.
  ghost predicate SpendsNothing(tx: Transaction) {
    |tx.input| == 1 && tx.input[0].previousOutput == OutPoint(0, 0xFFFF_FFFF)
  }

  ghost function Spend(u: Utxos, tx: Transaction, strict: bool): Option<Utxos> {
    if SpendsNothing(tx) then Some(u) else SpendAll(u, tx.input, strict)
  }

  ghost function StepByStep(u: Utxos, tx: Transaction, height: nat, strict: bool): Option<Utxos> {
    match Spend(u, tx, strict)
    case None => None
    case Some(v) => CreateFrom(v, tx, height, 0)
  }

  // ---- The steps agree with the whole ----

  function Named(inputs: seq<TxIn>): set<OutPoint> {
    set i | 0 <= i < |inputs| :: inputs[i].previousOutput
  }

  lemma {:induction false} NamedFirst(inputs: seq<TxIn>)
    requires inputs != []
    ensures Named(inputs) == {inputs[0].previousOutput} + Named(inputs[1..])
  {
    forall op | op in Named(inputs) ensures op in {inputs[0].previousOutput} + Named(inputs[1..]) {
      var i :| 0 <= i < |inputs| && inputs[i].previousOutput == op;
      assert i > 0 ==> inputs[1..][i - 1] == inputs[i];
    }
    forall op | op in Named(inputs[1..]) ensures op in Named(inputs) {
      var i :| 0 <= i < |inputs[1..]| && inputs[1..][i].previousOutput == op;
      assert inputs[i + 1] == inputs[1..][i];
    }
  }

  // Taking the first output away leaves the rest of the inputs present exactly when all were,
  // each named once.
  lemma {:induction false} PresentFirst(u: Utxos, inputs: seq<TxIn>)
    requires inputs != []
    ensures InputsPresent(u, inputs) <==>
            inputs[0].previousOutput in u && InputsPresent(u - {inputs[0].previousOutput}, inputs[1..])
  {
    var op, rest := inputs[0].previousOutput, inputs[1..];
    if InputsPresent(u, inputs) {
      assert forall i | 0 <= i < |rest| :: rest[i] == inputs[i + 1];
    }
    if op in u && InputsPresent(u - {op}, rest) {
      assert forall i | 1 <= i < |inputs| :: inputs[i] == rest[i - 1];
      forall i | 0 <= i < |inputs| ensures inputs[i].previousOutput in u {
        assert i > 0 ==> inputs[i] == rest[i - 1];
      }
    }
  }

  lemma {:induction false} SpendAllIs(u: Utxos, inputs: seq<TxIn>, strict: bool)
    ensures SpendAll(u, inputs, strict) ==
            if strict && !InputsPresent(u, inputs) then None else Some(u - Named(inputs))
    decreases |inputs|
  {
    if inputs == [] {
      assert u - Named(inputs) == u;
    } else {
      var op := inputs[0].previousOutput;
      NamedFirst(inputs);
      PresentFirst(u, inputs);
      SpendAllIs(if op in u then u - {op} else u, inputs[1..], strict);
      assert op in u ==> (u - {op}) - Named(inputs[1..]) == u - Named(inputs);
      assert op !in u ==> u - Named(inputs[1..]) == u - Named(inputs);
    }
  }

  // The outputs from index `i` on.
  function CreatedFrom(tx: Transaction, height: nat, i: nat): Utxos
    requires i <= |tx.output|
  {
    map j | i <= j < |tx.output| :: OutPoint(TXID(tx), j) := Utxo(tx.output[j], height)
  }

  ghost predicate SomeUnspent(u: Utxos, tx: Transaction, i: nat) {
    exists j :: i <= j < |tx.output| && OutPoint(TXID(tx), j) in u
  }

  lemma {:induction false} FirstCreated(u: Utxos, tx: Transaction, height: nat, i: nat)
    requires i < |tx.output|
    ensures u[OutPoint(TXID(tx), i) := Utxo(tx.output[i], height)] + CreatedFrom(tx, height, i + 1)
         == u + CreatedFrom(tx, height, i)
  {
    var op := OutPoint(TXID(tx), i);
    var later := CreatedFrom(tx, height, i + 1);
    assert CreatedFrom(tx, height, i) == later[op := Utxo(tx.output[i], height)];
    assert op !in later;
  }

  lemma {:induction false} FirstUnspent(u: Utxos, tx: Transaction, utxo: Utxo, i: nat)
    requires i < |tx.output|
    ensures SomeUnspent(u, tx, i) <==> OutPoint(TXID(tx), i) in u || SomeUnspent(u[OutPoint(TXID(tx), i) := utxo], tx, i + 1)
  {
    var op := OutPoint(TXID(tx), i);
    var v := u[op := utxo];
    if SomeUnspent(u, tx, i) && op !in u {
      var j :| i <= j < |tx.output| && OutPoint(TXID(tx), j) in u;
      assert OutPoint(TXID(tx), j) in v;
    }
    if SomeUnspent(v, tx, i + 1) {
      var j :| i + 1 <= j < |tx.output| && OutPoint(TXID(tx), j) in v;
      assert OutPoint(TXID(tx), j) in u;
    }
  }

  lemma {:induction false} CreateFromIs(u: Utxos, tx: Transaction, height: nat, i: nat)
    requires i <= |tx.output|
    ensures CreateFrom(u, tx, height, i) ==
            if SomeUnspent(u, tx, i) && TXID(tx) !in DUPLICATE_TX_IDS then None else Some(u + CreatedFrom(tx, height, i))
    decreases |tx.output| - i
  {
    if i == |tx.output| {
      assert u + CreatedFrom(tx, height, i) == u;
    } else {
      FirstCreated(u, tx, height, i);
      FirstUnspent(u, tx, Utxo(tx.output[i], height), i);
      CreateFromIs(u[OutPoint(TXID(tx), i) := Utxo(tx.output[i], height)], tx, height, i + 1);
    }
  }

  lemma {:induction false} ClashIsUnspent(u: Utxos, tx: Transaction)
    ensures Clashes(u, tx) != {} <==> SomeUnspent(u - Spent(tx), tx, 0)
  {
    if SomeUnspent(u - Spent(tx), tx, 0) {
      var j :| 0 <= j < |tx.output| && OutPoint(TXID(tx), j) in u - Spent(tx);
      assert OutPoint(TXID(tx), j) in Clashes(u, tx);
    }
    if op :| op in Clashes(u, tx) {
      assert op == OutPoint(TXID(tx), op.vout);
    }
  }

  lemma {:induction false} SpendIs(u: Utxos, tx: Transaction, strict: bool)
    ensures Spend(u, tx, strict) ==
            if strict && !tx.IsCoinBase() && !InputsPresent(u, tx.input) then None else Some(u - Spent(tx))
  {
    SpendAllIs(u, tx.input, strict);
    if SpendsNothing(tx) {
      assert u - Spent(tx) == u;
    } else {
      assert Spent(tx) == Named(tx.input);
    }
  }

  lemma {:induction false} CreateIs(u: Utxos, tx: Transaction, height: nat)
    ensures CreateFrom(u - Spent(tx), tx, height, 0) ==
            if Clashes(u, tx) != {} && TXID(tx) !in DUPLICATE_TX_IDS then None else Some(ApplyTx(u, tx, height))
  {
    ApplyTxParts(u, tx, height);
    ClashIsUnspent(u, tx);
    CreateFromIs(u - Spent(tx), tx, height, 0);
    assert CreatedFrom(tx, height, 0) == Created(tx, height);
  }

  // A transaction is accepted exactly when no step panics, and its effect is that of the steps.
  lemma {:induction false} InsertIsStepByStep(u: Utxos, tx: Transaction, height: nat, strict: bool)
    ensures StepByStep(u, tx, height, strict) == if Accepts(u, tx, strict) then Some(ApplyTx(u, tx, height)) else None
  {
    SpendIs(u, tx, strict);
    CreateIs(u, tx, height);
  }

  // ---- What becomes of one outpoint ----

  // An output that an input of an ordinary transaction names is gone, unless the transaction
  // creates it itself.
  lemma {:induction false} SpentLeaves(u: Utxos, tx: Transaction, height: nat, i: nat)
    requires |tx.input| != 1 || tx.input[0].previousOutput != OutPoint(0, 0xFFFF_FFFF)
    requires i < |tx.input|
    ensures var op := tx.input[i].previousOutput;
            op.txid != TXID(tx) || |tx.output| <= op.vout ==> op !in ApplyTx(u, tx, height)
  {
  }

  // An outpoint that no input names and that the transaction does not create keeps its entry.
  lemma {:induction false} OthersStay(u: Utxos, tx: Transaction, height: nat, op: OutPoint)
    requires forall i | 0 <= i < |tx.input| :: tx.input[i].previousOutput != op
    requires op.txid != TXID(tx) || |tx.output| <= op.vout
    ensures op in ApplyTx(u, tx, height) <==> op in u
    ensures op in u ==> ApplyTx(u, tx, height)[op] == u[op]
  {
    ApplyTxParts(u, tx, height);
  }

  // Every output of the transaction is there, at its index and at the given height.
  lemma {:induction false} OutputsAppear(u: Utxos, tx: Transaction, height: nat, i: nat)
    requires i < |tx.output|
    ensures var op := OutPoint(TXID(tx), i);
            op in ApplyTx(u, tx, height) && ApplyTx(u, tx, height)[op] == Utxo(tx.output[i], height)
  {
    ApplyTxParts(u, tx, height);
    assert Creates(tx, OutPoint(TXID(tx), i));
  }

  // A transaction that creates no outpoint of the set again leaves no index entry behind.
  lemma {:induction false} FreshLeavesNoMark(u: Utxos, tx: Transaction, network: Network)
    requires forall i | 0 <= i < |tx.output| :: OutPoint(TXID(tx), i) !in u
    ensures MarksOf(u, tx, network) == {}
  {
    forall op ensures op !in Clashes(u, tx) {
      assert op.txid != TXID(tx) || op == OutPoint(TXID(tx), op.vout);
    }
  }
}
