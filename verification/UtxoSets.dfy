/** The set of unspent transaction outputs, and the index from addresses to their outpoints
    that has to agree with it. */
module UtxoSets {
  import opened Bitcoin

  datatype Utxo = Utxo(output: TxOut, height: nat)

  type Utxos = map<OutPoint, Utxo>

  // The two transactions that the chain repeats (BIP 30); inserting their outputs again
  // overwrites.
  const DUPLICATE_TX_IDS: set<Txid> := {
    0xd5d27987d2a3dfc724e359870c6644b40e497bdc0589a033220fe15429d88599,
    0xe3bf3d07d4b0375638d5f1db5255fe07ba2c4cb067cd81b84ee974b6585fb468
  }

  // ---- What a transaction does to a plain set ----

  function Spent(tx: Transaction): set<OutPoint> {
    if tx.IsCoinBase() then {} else set i | 0 <= i < |tx.input| :: tx.input[i].previousOutput
  }

  // The first `n` outputs of the transaction, at the given height.
  function CreatedUpTo(tx: Transaction, height: nat, n: nat): Utxos
    requires n <= |tx.output|
  {
    map i | 0 <= i < n :: OutPoint(tx.Txid(), i) := Utxo(tx.output[i], height)
  }

  function Created(tx: Transaction, height: nat): Utxos {
    CreatedUpTo(tx, height, |tx.output|)
  }

  predicate Creates(tx: Transaction, op: OutPoint) {
    op.txid == tx.Txid() && op.vout < |tx.output|
  }

  // Spent outputs leave the set; created ones enter it, replacing what was there.
  function ApplyTx(u: Utxos, tx: Transaction, height: nat): Utxos {
    map op | op in u.Keys + Created(tx, height).Keys && (Creates(tx, op) || (op in u && op !in Spent(tx))) ::
      if Creates(tx, op) then Utxo(tx.output[op.vout], height) else u[op]
  }

  lemma {:induction false} ApplyTxParts(u: Utxos, tx: Transaction, height: nat)
    ensures forall op :: op in Created(tx, height) <==> Creates(tx, op)
    ensures ApplyTx(u, tx, height) == (u - Spent(tx)) + Created(tx, height)
  {
    forall op | Creates(tx, op) ensures op in Created(tx, height) {
      assert op == OutPoint(tx.Txid(), op.vout);
    }
  }

  // The outpoints among the first `n` outputs that are unspent already.
  function ClashesUpTo(u: Utxos, tx: Transaction, n: nat): set<OutPoint>
    requires n <= |tx.output|
  {
    set op | op in u && op.txid == tx.Txid() && op.vout < n
  }

  // The outpoints that the transaction creates although they are unspent.
  function Clashes(u: Utxos, tx: Transaction): set<OutPoint> {
    ClashesUpTo(u - Spent(tx), tx, |tx.output|)
  }

  // The entries that the index of a set keeps about an outpoint when its output is replaced.
  function MarkOf(u: Utxos, op: OutPoint, network: Network): Marks {
    if op in u && AddressOf(u[op].output, network).Some? then {(AddressOf(u[op].output, network).value, op)} else {}
  }

  function MarksUpTo(u: Utxos, tx: Transaction, n: nat, network: Network): Marks
    requires n <= |tx.output|
  {
    set op | op in ClashesUpTo(u, tx, n) && AddressOf(u[op].output, network).Some? ::
      (AddressOf(u[op].output, network).value, op)
  }

  // The entries of the index that a transaction leaves behind by creating unspent outpoints
  // again.
  function MarksOf(u: Utxos, tx: Transaction, network: Network): Marks {
    MarksUpTo(u - Spent(tx), tx, |tx.output|, network)
  }

  ghost predicate InputsPresent(u: Utxos, inputs: seq<TxIn>) {
    && (forall i | 0 <= i < |inputs| :: inputs[i].previousOutput in u)
    && (forall i, j | 0 <= i < j < |inputs| :: inputs[i].previousOutput != inputs[j].previousOutput)
  }

  // When the set takes the transaction instead of panicking.
  ghost predicate Accepts(u: Utxos, tx: Transaction, strict: bool) {
    && (strict && !tx.IsCoinBase() ==> InputsPresent(u, tx.input))
    && (Clashes(u, tx) != {} ==> tx.Txid() in DUPLICATE_TX_IDS)
  }

  // The part of the set that belongs to an address.
  ghost function Slice(u: Utxos, address: Address, network: Network): Utxos {
    map op | op in u && Pays(u, op, address, network) :: u[op]
  }

  function ToSet(u: Utxos): set<(OutPoint, TxOut, nat)> {
    set op | op in u :: (op, u[op].output, u[op].height)
  }

  lemma {:induction false} SetMembers(u: Utxos, op: OutPoint, output: TxOut, height: nat)
    ensures (op, output, height) in ToSet(u) <==> op in u && u[op] == Utxo(output, height)
  {
  }

  // ---- The index ----

  type Index = map<Address, seq<OutPoint>>

  type Marks = set<(Address, OutPoint)>

  ghost predicate Lists(index: Index, a: Address, op: OutPoint) {
    a in index && op in index[a]
  }

  ghost predicate Pays(u: Utxos, op: OutPoint, a: Address, network: Network) {
    op in u && AddressOf(u[op].output, network) == Some(a)
  }

  // Every unspent output that has an address is listed under it; every list is non-empty; and
  // apart from `repeated` entries the lists hold nothing else and nothing twice.
  ghost predicate IndexAgrees(u: Utxos, index: Index, network: Network, repeated: Marks) {
    && (forall op, a | Pays(u, op, a, network) :: Lists(index, a, op))
    && (forall a | a in index :: index[a] != [])
    && (forall op, a | Lists(index, a, op) && (a, op) !in repeated :: Pays(u, op, a, network))
    && (forall a, i, j | a in index && 0 <= i < j < |index[a]| && index[a][i] == index[a][j] ::
          (a, index[a][i]) in repeated)
  }

  // The index after pushing an outpoint onto the list of its address.
  function Indexed(index: Index, address: Option<Address>, op: OutPoint): Index {
    match address
    case Some(a) => index[a := (if a in index then index[a] else []) + [op]]
    case None => index
  }

  lemma {:induction false} IndexedAgrees(u: Utxos, index: Index, network: Network, repeated: Marks, op: OutPoint, utxo: Utxo)
    requires IndexAgrees(u, index, network, repeated)
    ensures IndexAgrees(u[op := utxo], Indexed(index, AddressOf(utxo.output, network), op), network,
                        repeated + MarkOf(u, op, network))
  {
    var v, indexed := u[op := utxo], Indexed(index, AddressOf(utxo.output, network), op);
    var marked := repeated + MarkOf(u, op, network);
    forall q, a | Pays(v, q, a, network) ensures Lists(indexed, a, q) {
      assert q != op ==> Pays(u, q, a, network);
    }
    forall q, a | Lists(indexed, a, q) && (a, q) !in marked ensures Pays(v, q, a, network) {
      assert q != op ==> Lists(index, a, q);
      assert Lists(index, a, q) ==> Pays(u, q, a, network);
    }
    forall a, i, j | a in indexed && 0 <= i < j < |indexed[a]| && indexed[a][i] == indexed[a][j]
      ensures (a, indexed[a][i]) in marked
    {
      assert Lists(index, a, op) && (a, op) !in repeated ==> Pays(u, op, a, network);
    }
  }

  // The listed part of the set.
  ghost function Lookup(u: Utxos, list: seq<OutPoint>): Utxos {
    map op | op in list && op in u :: u[op]
  }

  lemma {:induction false} LookupSnoc(u: Utxos, list: seq<OutPoint>, i: nat)
    requires i < |list| && list[i] in u
    ensures Lookup(u, list[..i + 1]) == Lookup(u, list[..i])[list[i] := u[list[i]]]
  {
    assert list[..i + 1] == list[..i] + [list[i]];
  }

  // A list of the index without repeated entries is exactly the slice of its address, each
  // outpoint once.
  lemma {:induction false} ListedIsSlice(u: Utxos, index: Index, network: Network, repeated: Marks, a: Address)
    requires IndexAgrees(u, index, network, repeated)
    requires forall op | Lists(index, a, op) :: (a, op) !in repeated
    ensures var list := if a in index then index[a] else [];
            && (forall op | op in list :: op in u)
            && (forall i, j | 0 <= i < j < |list| :: list[i] != list[j])
            && Lookup(u, list) == Slice(u, a, network)
  {
    assert forall op :: Lists(index, a, op) <==> Pays(u, op, a, network);
    var list := if a in index then index[a] else [];
    assert forall op :: op in list <==> Lists(index, a, op);
  }

  // The list without its occurrence of an outpoint at position `i`.
  function RemoveAt(list: seq<OutPoint>, i: nat): seq<OutPoint>
    requires i < |list|
  {
    list[..i] + list[i + 1..]
  }

  // The index after removing that occurrence, and the whole list when it becomes empty.
  function Unindexed(index: Index, a: Address, i: nat): Index
    requires a in index && i < |index[a]|
  {
    if |index[a]| == 1 then index - {a} else index[a := RemoveAt(index[a], i)]
  }

  lemma {:induction false} UnindexedAgrees(u: Utxos, index: Index, network: Network, repeated: Marks, op: OutPoint, a: Address, i: nat)
    requires IndexAgrees(u, index, network, repeated)
    requires Pays(u, op, a, network)
    requires a in index && i < |index[a]| && index[a][i] == op
    ensures IndexAgrees(u - {op}, Unindexed(index, a, i), network, repeated)
  {
    var v, rest := u - {op}, Unindexed(index, a, i);
    forall q, c | Pays(v, q, c, network) ensures Lists(rest, c, q) {
      assert Pays(u, q, c, network);
      StaysListed(index, a, i, c, q);
    }
    forall q, c | Lists(rest, c, q) && (c, q) !in repeated ensures Pays(v, q, c, network) {
      assert Lists(index, c, q);
      assert Pays(u, q, c, network);
      if c == a {
        ListedOnce(index[a], i, a, repeated);
      }
    }
  }

  lemma {:induction false} ListedOnce(list: seq<OutPoint>, i: nat, a: Address, repeated: Marks)
    requires i < |list| && forall j, k | 0 <= j < k < |list| && list[j] == list[k] :: (a, list[j]) in repeated
    ensures (a, list[i]) in repeated || list[i] !in RemoveAt(list, i)
  {
    var rest := RemoveAt(list, i);
    assert forall j | 0 <= j < |rest| :: rest[j] == list[if j < i then j else j + 1];
  }

  lemma {:induction false} StaysListed(index: Index, a: Address, i: nat, c: Address, q: OutPoint)
    requires a in index && i < |index[a]| && q != index[a][i] && Lists(index, c, q)
    ensures Lists(Unindexed(index, a, i), c, q)
  {
    if c == a {
      var j :| 0 <= j < |index[a]| && index[a][j] == q;
      assert RemoveAt(index[a], i)[if j < i then j else j - 1] == q;
    }
  }

  // The set after inserting the first `n` outputs one by one.
  ghost function InsertedUpTo(u: Utxos, tx: Transaction, height: nat, n: nat): Utxos
    requires n <= |tx.output|
  {
    if n == 0 then u
    else InsertedUpTo(u, tx, height, n - 1)[OutPoint(tx.Txid(), n - 1) := Utxo(tx.output[n - 1], height)]
  }

  lemma {:induction false} InsertedTogether(u: Utxos, tx: Transaction, height: nat, n: nat)
    requires n <= |tx.output|
    ensures InsertedUpTo(u, tx, height, n) == u + CreatedUpTo(tx, height, n)
  {
    if n == 0 {
    } else {
      InsertedTogether(u, tx, height, n - 1);
      OneMoreCreated(tx, height, n - 1);
      UpdateUnion(u, CreatedUpTo(tx, height, n - 1), OutPoint(tx.Txid(), n - 1), Utxo(tx.output[n - 1], height));
    }
  }

  lemma {:induction false} OneMoreCreated(tx: Transaction, height: nat, i: nat)
    requires i < |tx.output|
    ensures CreatedUpTo(tx, height, i + 1) ==
            CreatedUpTo(tx, height, i)[OutPoint(tx.Txid(), i) := Utxo(tx.output[i], height)]
  {
  }

  lemma {:induction false} UpdateUnion(u: Utxos, v: Utxos, op: OutPoint, utxo: Utxo)
    ensures (u + v)[op := utxo] == u + v[op := utxo]
  {
  }

  lemma {:induction false} OneMoreClash(u: Utxos, tx: Transaction, height: nat, i: nat)
    requires i < |tx.output|
    ensures var op := OutPoint(tx.Txid(), i);
            && (op in InsertedUpTo(u, tx, height, i) <==> op in u)
            && (op in u ==> InsertedUpTo(u, tx, height, i)[op] == u[op])
            && ClashesUpTo(u, tx, i + 1) == ClashesUpTo(u, tx, i) + if op in u then {op} else {}
  {
    InsertedTogether(u, tx, height, i);
    forall op | op in ClashesUpTo(u, tx, i + 1) && op !in ClashesUpTo(u, tx, i) ensures op == OutPoint(tx.Txid(), i) {
      assert op.vout == i;
    }
  }

  lemma {:induction false} OneMoreMark(u: Utxos, tx: Transaction, height: nat, i: nat, network: Network)
    requires i < |tx.output|
    ensures MarksUpTo(u, tx, i + 1, network) ==
            MarksUpTo(u, tx, i, network) + MarkOf(InsertedUpTo(u, tx, height, i), OutPoint(tx.Txid(), i), network)
  {
    OneMoreClash(u, tx, height, i);
  }

  lemma {:induction false} ClashesGrow(u: Utxos, tx: Transaction, n: nat)
    requires n <= |tx.output|
    ensures ClashesUpTo(u, tx, n) <= ClashesUpTo(u, tx, |tx.output|)
  {
  }

  class UtxoSet {
    var utxos: Utxos
    const network: Network
    var addressToOutpoints: Index
    const strict: bool
    // The entries of the index whose output was created again while unspent.
    ghost var repeated: Marks

    ghost predicate Valid()
      reads this
    {
      IndexAgrees(utxos, addressToOutpoints, network, repeated) &&
      forall m | m in repeated :: m.1.txid in DUPLICATE_TX_IDS
    }

    // No outpoint listed for the address is repeated.
    ghost predicate Clear(address: Address)
      reads this
    {
      forall op | Lists(addressToOutpoints, address, op) :: (address, op) !in repeated
    }

    constructor (strict: bool, network: Network)
      ensures Valid() && utxos == map[] && repeated == {}
      ensures this.strict == strict && this.network == network
    {
      utxos := map[];
      addressToOutpoints := map[];
      this.strict := strict;
      this.network := network;
      repeated := {};
    }

    /** Adds an output; `ok` is false where the source panics. */
    method InsertOutpoint(op: OutPoint, output: TxOut, height: nat) returns (ok: bool)
      requires Valid()
      modifies this
      ensures Valid()
      ensures ok <==> (op in old(utxos) ==> op.txid in DUPLICATE_TX_IDS)
      ensures ok ==> utxos == old(utxos)[op := Utxo(output, height)]
      ensures ok ==> repeated == old(repeated) + MarkOf(old(utxos), op, network)
    {
      if op in utxos && op.txid !in DUPLICATE_TX_IDS {
        return false;
      }
      IndexedAgrees(utxos, addressToOutpoints, network, repeated, op, Utxo(output, height));
      repeated := repeated + MarkOf(utxos, op, network);
      var address := AddressOf(output, network);
      if address.Some? {
        var list := if address.value in addressToOutpoints then addressToOutpoints[address.value] else [];
        addressToOutpoints := addressToOutpoints[address.value := list + [op]];
      }
      utxos := utxos[op := Utxo(output, height)];
      ok := true;
    }

    /** Removes one spent output from the set and from the index. */
    method RemoveOutpoint(op: OutPoint)
      requires Valid() && op in utxos
      modifies this
      ensures Valid() && utxos == old(utxos) - {op} && repeated == old(repeated)
    {
      var address := AddressOf(utxos[op].output, network);
      if address.Some? {
        var a := address.value;
        assert Pays(utxos, op, a, network) && Lists(addressToOutpoints, a, op);
        var list := addressToOutpoints[a];
        var i := 0;
        while i < |list| && list[i] != op
          invariant i <= |list| && op !in list[..i]
        {
          assert list[..i + 1] == list[..i] + [list[i]];
          i := i + 1;
        }
        // The index agrees with the set, so the search cannot fail.
        assert i < |list| by {
          assert list[..|list|] == list;
        }
        UnindexedAgrees(utxos, addressToOutpoints, network, repeated, op, a, i);
        list := list[..i] + list[i + 1..];
        addressToOutpoints := if list == [] then addressToOutpoints - {a} else addressToOutpoints[a := list];
      }
      utxos := utxos - {op};
    }

    /** Removes the outputs that a transaction spends. */
    method RemoveSpentTxs(tx: Transaction) returns (ok: bool)
      requires Valid()
      modifies this
      ensures Valid() && repeated == old(repeated)
      ensures ok <==> (strict && !tx.IsCoinBase() ==> InputsPresent(old(utxos), tx.input))
      ensures ok ==> utxos == old(utxos) - Spent(tx)
    {
      if tx.IsCoinBase() {
        return true;
      }
      ghost var spent: set<OutPoint> := {};
      for i := 0 to |tx.input|
        invariant Valid() && repeated == old(repeated)
        invariant spent == set j | 0 <= j < i :: tx.input[j].previousOutput
        invariant utxos == old(utxos) - spent
        invariant strict ==> InputsPresent(old(utxos), tx.input[..i])
      {
        var op := tx.input[i].previousOutput;
        if op in utxos {
          RemoveOutpoint(op);
        } else if strict {
          assert op !in old(utxos) || exists j :: 0 <= j < i && tx.input[j].previousOutput == op;
          return false;
        }
        spent := spent + {op};
      }
      assert tx.input[..|tx.input|] == tx.input;
      ok := true;
    }

    /** Adds the outputs of a transaction. */
    method InsertUnspentTxs(tx: Transaction, height: nat) returns (ok: bool)
      requires Valid()
      modifies this
      ensures Valid()
      ensures ok <==> (ClashesUpTo(old(utxos), tx, |tx.output|) != {} ==> tx.Txid() in DUPLICATE_TX_IDS)
      ensures ok ==> utxos == old(utxos) + Created(tx, height)
      ensures ok ==> repeated == old(repeated) + MarksUpTo(old(utxos), tx, |tx.output|, network)
    {
      for i := 0 to |tx.output|
        invariant Valid()
        invariant utxos == InsertedUpTo(old(utxos), tx, height, i)
        invariant repeated == old(repeated) + MarksUpTo(old(utxos), tx, i, network)
        invariant ClashesUpTo(old(utxos), tx, i) != {} ==> tx.Txid() in DUPLICATE_TX_IDS
      {
        var op := OutPoint(tx.Txid(), i);
        OneMoreClash(old(utxos), tx, height, i);
        OneMoreMark(old(utxos), tx, height, i, network);
        var inserted := InsertOutpoint(op, tx.output[i], height);
        if !inserted {
          ClashesGrow(old(utxos), tx, i + 1);
          return false;
        }
      }
      InsertedTogether(old(utxos), tx, height, |tx.output|);
      ok := true;
    }

    /** Applies a transaction: its inputs leave the set and its outputs enter it. */
    method InsertTx(tx: Transaction, height: nat) returns (ok: bool)
      requires Valid()
      modifies this
      ensures Valid()
      ensures ok <==> Accepts(old(utxos), tx, strict)
      ensures ok ==> utxos == ApplyTx(old(utxos), tx, height)
      ensures ok ==> repeated == old(repeated) + MarksOf(old(utxos), tx, network)
    {
      ApplyTxParts(utxos, tx, height);
      ok := RemoveSpentTxs(tx);
      if ok {
        ok := InsertUnspentTxs(tx, height);
      }
    }

    // The outpoints that the index lists for an address.
    function Listed(address: Address): seq<OutPoint>
      reads this
    {
      if address in addressToOutpoints then addressToOutpoints[address] else []
    }

    /** The set of an address, taken through the index; `ok` is false where a lookup fails.
        That takes a repeated entry of that address: otherwise the result is its slice. */
    method GetUtxos(address: Address) returns (ok: bool, r: UtxoSet)
      requires Valid()
      ensures fresh(r) && r.Valid() && !r.strict && r.network == network
      ensures ok <==> forall op | op in Listed(address) :: op in utxos
      ensures ok ==> r.utxos == Lookup(utxos, Listed(address))
      ensures Clear(address) ==> ok && r.utxos == Slice(utxos, address, network) && r.repeated == {}
    {
      r := new UtxoSet(false, network);
      var list := Listed(address);
      if Clear(address) {
        ListedIsSlice(utxos, addressToOutpoints, network, repeated, address);
      }
      for i := 0 to |list|
        invariant fresh(r) && r.Valid() && unchanged(this) && !r.strict && r.network == network
        invariant forall op | op in list[..i] :: op in utxos
        invariant r.utxos == Lookup(utxos, list[..i])
        invariant Clear(address) ==> r.repeated == {}
      {
        var op := list[i];
        assert list[..i + 1] == list[..i] + [op];
        if op !in utxos {
          return false, r;
        }
        LookupSnoc(utxos, list, i);
        // An outpoint listed twice is a repeated one, and so an exempt one.
        assert op in r.utxos ==> Lists(addressToOutpoints, address, op) && (address, op) in repeated;
        var inserted := r.InsertOutpoint(op, utxos[op].output, utxos[op].height);
        assert inserted;
      }
      assert list[..|list|] == list;
      ok := true;
    }
  }
}
