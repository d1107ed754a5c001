/** The records in which the state is stored across upgrades, and the conversions to and from
    them. `None` stands for a panic: a missing field, a hash that is not 32 bytes long, an
    unknown network, or an output stored twice. */
module Proto {
  import opened Bitcoin
  import opened BlockTrees
  import opened UtxoSets
  import opened Store
  import opened BlockForests

  // ---- Records ----

  datatype OutPointProto = OutPointProto(txid: Bytes, vout: nat)
  datatype TxOutProto = TxOutProto(value: nat, scriptPubkey: Bytes)
  datatype TxInProto = TxInProto(previousOutput: Option<OutPointProto>, scriptSig: Bytes, sequence: nat, stack: seq<Bytes>)
  datatype TransactionProto = TransactionProto(version: int, lockTime: nat, input: seq<TxInProto>, output: seq<TxOutProto>)
  datatype HeaderProto = HeaderProto(version: int, prevBlockhash: Bytes, merkleRoot: Bytes, time: nat, bits: nat, nonce: nat)
  datatype BlockProto = BlockProto(header: Option<HeaderProto>, txdata: seq<TransactionProto>)
  datatype BlockTreeProto = BlockTreeProto(root: Option<BlockProto>, children: seq<BlockTreeProto>)
  datatype BlockForestProto = BlockForestProto(delta: nat, trees: seq<BlockTreeProto>)
  datatype UtxoProto = UtxoProto(outpoint: Option<OutPointProto>, txout: Option<TxOutProto>, height: nat)
  datatype UtxoSetProto = UtxoSetProto(utxos: seq<UtxoProto>, strict: bool, network: int)
  datatype StateProto = StateProto(height: nat, latestStableBlockHash: Bytes, utxos: Option<UtxoSetProto>, unstableBlocks: Option<BlockForestProto>)

  // ---- Conversions of values ----

  function HashToProto(h: nat): Bytes {
    Bytes(32, h)
  }

  function HashFromProto(b: Bytes): Option<nat> {
    if b.length == 32 then Some(b.value) else None
  }

  function OutPointToProto(o: OutPoint): OutPointProto {
    OutPointProto(HashToProto(o.txid), o.vout)
  }

  function OutPointFromProto(p: Option<OutPointProto>): Option<OutPoint> {
    match p
    case None => None
    case Some(o) =>
      match HashFromProto(o.txid)
      case None => None
      case Some(txid) => Some(OutPoint(txid, o.vout))
  }

  function TxOutToProto(o: TxOut): TxOutProto {
    TxOutProto(o.value, o.scriptPubkey)
  }

  function TxOutFromProto(p: TxOutProto): TxOut {
    TxOut(p.value, p.scriptPubkey)
  }

  function TxInToProto(i: TxIn): TxInProto {
    TxInProto(Some(OutPointToProto(i.previousOutput)), i.scriptSig, i.sequence, i.stack)
  }

  function TxInFromProto(p: TxInProto): Option<TxIn> {
    match OutPointFromProto(p.previousOutput)
    case None => None
    case Some(o) => Some(TxIn(o, p.scriptSig, p.sequence, p.stack))
  }

  // Converts all elements, or fails where one conversion fails.
  function Collect<A, B>(from: A -> Option<B>, ps: seq<A>): Option<seq<B>> {
    if ps == [] then Some([])
    else
      match from(ps[0])
      case None => None
      case Some(x) =>
        match Collect(from, ps[1..])
        case None => None
        case Some(xs) => Some([x] + xs)
  }

  function Map<A, B>(to: A -> B, xs: seq<A>): seq<B> {
    seq(|xs|, i requires 0 <= i < |xs| => to(xs[i]))
  }

  function TransactionToProto(t: Transaction): TransactionProto {
    TransactionProto(t.version, t.lockTime, Map(TxInToProto, t.input), Map(TxOutToProto, t.output))
  }

  function TransactionFromProto(p: TransactionProto): Option<Transaction> {
    match Collect(TxInFromProto, p.input)
    case None => None
    case Some(input) => Some(Transaction(p.version, p.lockTime, input, Map(TxOutFromProto, p.output)))
  }

  function BlockToProto(b: Block): BlockProto {
    var h := b.header;
    BlockProto(Some(HeaderProto(h.version, HashToProto(h.prevBlockhash), HashToProto(h.merkleRoot), h.time, h.bits, h.nonce)),
               Map(TransactionToProto, b.txdata))
  }

  function HeaderFromProto(p: Option<HeaderProto>): Option<Header> {
    match p
    case None => None
    case Some(h) =>
      match HashFromProto(h.prevBlockhash)
      case None => None
      case Some(prev) =>
        match HashFromProto(h.merkleRoot)
        case None => None
        case Some(root) => Some(Header(h.version, prev, root, h.time, h.bits, h.nonce))
  }

  function BlockFromProto(p: BlockProto): Option<Block> {
    match HeaderFromProto(p.header)
    case None => None
    case Some(header) =>
      match Collect(TransactionFromProto, p.txdata)
      case None => None
      case Some(txdata) => Some(Block(header, txdata))
  }

  function TreesToProto(ts: seq<BlockTree>): seq<BlockTreeProto>
    decreases ts
  {
    if ts == [] then []
    else [BlockTreeProto(Some(BlockToProto(ts[0].root)), TreesToProto(ts[0].children))] + TreesToProto(ts[1..])
  }

  function TreesFromProto(ps: seq<BlockTreeProto>): Option<seq<BlockTree>>
    decreases ps
  {
    if ps == [] then Some([])
    else
      match ps[0].root
      case None => None
      case Some(p) =>
        match BlockFromProto(p)
        case None => None
        case Some(root) =>
          match TreesFromProto(ps[0].children)
          case None => None
          case Some(children) =>
            match TreesFromProto(ps[1..])
            case None => None
            case Some(rest) => Some([Node(root, children)] + rest)
  }

  function NetworkToProto(n: Network): int {
    match n
    case Mainnet => 0
    case Testnet => 1
    case Signet => 2
    case Regtest => 3
  }

  function NetworkFromProto(p: int): Option<Network> {
    if p == 0 then Some(Mainnet)
    else if p == 1 then Some(Testnet)
    else if p == 2 then Some(Signet)
    else if p == 3 then Some(Regtest)
    else None
  }

  // ---- Values survive the round trip ----

  lemma {:induction false} CollectMap<A, B>(to: A -> B, from: B -> Option<A>, xs: seq<A>)
    requires forall x | x in xs :: from(to(x)) == Some(x)
    ensures Collect(from, Map(to, xs)) == Some(xs)
  {
    if xs == [] {
    } else {
      assert Map(to, xs)[1..] == Map(to, xs[1..]);
      CollectMap(to, from, xs[1..]);
      assert xs == [xs[0]] + xs[1..];
    }
  }

  lemma {:induction false} OutputsRoundTrip(outputs: seq<TxOut>)
    ensures Map(TxOutFromProto, Map(TxOutToProto, outputs)) == outputs
  {
    var stored := Map(TxOutToProto, outputs);
    forall i | 0 <= i < |outputs| ensures Map(TxOutFromProto, stored)[i] == outputs[i] {
      assert stored[i] == TxOutToProto(outputs[i]);
      assert Map(TxOutFromProto, stored)[i] == TxOutFromProto(stored[i]);
    }
  }

  lemma {:induction false} TransactionRoundTrip(t: Transaction)
    ensures TransactionFromProto(TransactionToProto(t)) == Some(t)
  {
    CollectMap(TxInToProto, TxInFromProto, t.input);
    OutputsRoundTrip(t.output);
  }

  lemma {:induction false} BlockRoundTrip(b: Block)
    ensures BlockFromProto(BlockToProto(b)) == Some(b)
  {
    forall t | t in b.txdata ensures TransactionFromProto(TransactionToProto(t)) == Some(t) {
      TransactionRoundTrip(t);
    }
    CollectMap(TransactionToProto, TransactionFromProto, b.txdata);
  }

  // A forest comes back with its shape, its order and its blocks.
  lemma {:induction false} TreesRoundTrip(ts: seq<BlockTree>)
    ensures TreesFromProto(TreesToProto(ts)) == Some(ts)
    decreases ts
  {
    if ts == [] {
    } else {
      BlockRoundTrip(ts[0].root);
      TreesRoundTrip(ts[0].children);
      TreesRoundTrip(ts[1..]);
      var ps := TreesToProto(ts);
      assert ps[1..] == TreesToProto(ts[1..]);
      assert ts == [Node(ts[0].root, ts[0].children)] + ts[1..];
    }
  }

  // ---- Every field is stored under its own name ----

  ghost predicate HashStored(p: Bytes, h: nat) {
    p.length == 32 && p.value == h
  }

  ghost predicate OutputStored(p: TxOutProto, o: TxOut) {
    p.value == o.value && p.scriptPubkey == o.scriptPubkey
  }

  ghost predicate InputStored(p: TxInProto, i: TxIn) {
    && p.previousOutput.Some? && HashStored(p.previousOutput.value.txid, i.previousOutput.txid)
    && p.previousOutput.value.vout == i.previousOutput.vout
    && p.scriptSig == i.scriptSig && p.sequence == i.sequence && p.stack == i.stack
  }

  ghost predicate TransactionStored(p: TransactionProto, t: Transaction) {
    && p.version == t.version && p.lockTime == t.lockTime && |p.input| == |t.input| && |p.output| == |t.output|
    && (forall i | 0 <= i < |t.input| :: InputStored(p.input[i], t.input[i]))
    && (forall i | 0 <= i < |t.output| :: OutputStored(p.output[i], t.output[i]))
  }

  ghost predicate HeaderStored(p: HeaderProto, h: Header) {
    && p.version == h.version && p.time == h.time && p.bits == h.bits && p.nonce == h.nonce
    && HashStored(p.prevBlockhash, h.prevBlockhash) && HashStored(p.merkleRoot, h.merkleRoot)
  }

  // The record of a block and the block say the same, field by field.
  lemma {:induction false} BlockStored(b: Block)
    ensures var p := BlockToProto(b);
            && p.header.Some? && HeaderStored(p.header.value, b.header) && |p.txdata| == |b.txdata|
            && forall i | 0 <= i < |b.txdata| :: TransactionStored(p.txdata[i], b.txdata[i])
  {
    forall i | 0 <= i < |b.txdata| ensures TransactionStored(BlockToProto(b).txdata[i], b.txdata[i]) {
      TransactionIsStored(b.txdata[i]);
    }
  }

  lemma {:induction false} TransactionIsStored(t: Transaction)
    ensures TransactionStored(TransactionToProto(t), t)
  {
    var p := TransactionToProto(t);
    assert forall i | 0 <= i < |t.input| :: p.input[i] == TxInToProto(t.input[i]);
    assert forall i | 0 <= i < |t.output| :: p.output[i] == TxOutToProto(t.output[i]);
  }

  lemma {:induction false} UtxoStored(op: OutPoint, utxo: Utxo)
    ensures var p := UtxoToProto(op, utxo);
            && p.outpoint.Some? && HashStored(p.outpoint.value.txid, op.txid) && p.outpoint.value.vout == op.vout
            && p.txout.Some? && OutputStored(p.txout.value, utxo.output) && p.height == utxo.height
  {
  }

  // ---- The set of outputs ----

  function UtxoToProto(op: OutPoint, utxo: Utxo): UtxoProto {
    UtxoProto(Some(OutPointToProto(op)), Some(TxOutToProto(utxo.output)), utxo.height)
  }

  function UtxoFromProto(p: UtxoProto): Option<(OutPoint, Utxo)> {
    match OutPointFromProto(p.outpoint)
    case None => None
    case Some(op) =>
      match p.txout
      case None => None
      case Some(o) => Some((op, Utxo(TxOutFromProto(o), p.height)))
  }

  // Inserting the stored outputs one by one.
  function UtxosFromProto(ps: seq<UtxoProto>): Option<Utxos> {
    if ps == [] then Some(map[])
    else
      match UtxosFromProto(ps[..|ps| - 1])
      case None => None
      case Some(u) =>
        match UtxoFromProto(ps[|ps| - 1])
        case None => None
        case Some(x) => if x.0 in u && x.0.txid !in DUPLICATE_TX_IDS then None else Some(u[x.0 := x.1])
  }

  // Whether no output is stored twice.
  ghost predicate StoredOnce(ps: seq<UtxoProto>) {
    forall i, j | 0 <= i < j < |ps| :: OutPointFromProto(ps[i].outpoint) != OutPointFromProto(ps[j].outpoint)
  }

  // `ops` lists the outpoints of the set, each once, in some order.
  ghost predicate Enumerates(ops: seq<OutPoint>, u: Utxos) {
    && (forall op :: op in ops <==> op in u)
    && (forall i, j | 0 <= i < j < |ops| :: ops[i] != ops[j])
  }

  ghost function Stored(ops: seq<OutPoint>, u: Utxos): seq<UtxoProto>
    requires forall op | op in ops :: op in u
  {
    seq(|ops|, i requires 0 <= i < |ops| => UtxoToProto(ops[i], u[ops[i]]))
  }

  // The records hold each output of the set once, in some order.
  ghost predicate Stores(ps: seq<UtxoProto>, u: Utxos) {
    exists ops: seq<OutPoint> :: Enumerates(ops, u) && ps == Stored(ops, u)
  }

  lemma {:induction false} StoredComesBack(ops: seq<OutPoint>, u: Utxos)
    requires forall op | op in ops :: op in u
    requires forall i, j | 0 <= i < j < |ops| :: ops[i] != ops[j]
    ensures UtxosFromProto(Stored(ops, u)) == Some(Lookup(u, ops))
  {
    if ops == [] {
    } else {
      var n := |ops| - 1;
      assert Stored(ops, u)[..n] == Stored(ops[..n], u);
      StoredComesBack(ops[..n], u);
      LookupSnoc(u, ops, n);
      assert ops[..n + 1] == ops;
    }
  }

  // Whatever the order in which a set is stored, it comes back, without a panic.
  lemma {:induction false} UtxosRoundTrip(ps: seq<UtxoProto>, u: Utxos)
    requires Stores(ps, u)
    ensures UtxosFromProto(ps) == Some(u) && StoredOnce(ps)
  {
    var ops :| Enumerates(ops, u) && ps == Stored(ops, u);
    StoredComesBack(ops, u);
    assert Lookup(u, ops) == u;
  }

  // Two indexes of the same set list the same outpoints for an address without repeated
  // entries, in whatever order.
  lemma {:induction false} SameList(u: Utxos, first: Index, second: Index, network: Network, repeated: Marks, again: Marks, a: Address)
    requires IndexAgrees(u, first, network, repeated) && IndexAgrees(u, second, network, again)
    requires forall op | Lists(first, a, op) :: (a, op) !in repeated
    requires forall op | Lists(second, a, op) :: (a, op) !in again
    ensures SameListed(first, second, a)
  {
    if a in first {
      ListWithin(u, first, second, network, repeated, again, a);
    }
    if a in second {
      ListWithin(u, second, first, network, again, repeated, a);
    }
  }

  ghost predicate SameListed(first: Index, second: Index, a: Address) {
    (a in first <==> a in second) && (a in first ==> multiset(first[a]) == multiset(second[a]))
  }

  lemma {:induction false} ListWithin(u: Utxos, first: Index, second: Index, network: Network, repeated: Marks, again: Marks, a: Address)
    requires IndexAgrees(u, first, network, repeated) && IndexAgrees(u, second, network, again) && a in first
    requires forall op | Lists(first, a, op) :: (a, op) !in repeated
    ensures a in second && multiset(first[a]) <= multiset(second[a])
  {
    forall op | op in first[a] ensures a in second && op in second[a] {
      assert Lists(first, a, op);
      assert Pays(u, op, a, network);
      assert Lists(second, a, op);
    }
    assert first[a][0] in first[a];
    assert forall i | 0 <= i < |first[a]| :: Lists(first, a, first[a][i]);
    forall op ensures multiset(first[a])[op] <= multiset(second[a])[op] {
      OnceAtMost(first[a], op);
      if op in first[a] {
        assert op in multiset(second[a]);
      }
    }
  }

  lemma {:induction false} OnceAtMost(list: seq<OutPoint>, op: OutPoint)
    requires forall i, j | 0 <= i < j < |list| :: list[i] != list[j]
    ensures multiset(list)[op] <= 1
  {
    if list == [] {
    } else {
      OnceAtMost(list[1..], op);
      assert list == [list[0]] + list[1..];
      if list[0] == op {
        assert op !in list[1..];
      }
    }
  }

  lemma {:induction false} StoredSnoc(ops: seq<OutPoint>, u: Utxos, op: OutPoint)
    requires op in u && forall q | q in ops :: q in u
    ensures Stored(ops + [op], u) == Stored(ops, u) + [UtxoToProto(op, u[op])]
  {
  }

  /** Stores the set, in any order. */
  method UtxoSetToProto(s: UtxoSet) returns (p: UtxoSetProto)
    ensures Stores(p.utxos, s.utxos)
    ensures p.strict == s.strict && p.network == NetworkToProto(s.network)
  {
    var stored: seq<UtxoProto> := [];
    ghost var ops: seq<OutPoint> := [];
    var rest := s.utxos;
    while rest != map[]
      invariant forall op | op in rest :: op in s.utxos && rest[op] == s.utxos[op] && op !in ops
      invariant forall op | op in s.utxos :: op in rest || op in ops
      invariant forall op | op in ops :: op in s.utxos
      invariant forall i, j | 0 <= i < j < |ops| :: ops[i] != ops[j]
      invariant stored == Stored(ops, s.utxos)
      decreases |rest|
    {
      var op :| op in rest;
      StoredSnoc(ops, s.utxos, op);
      stored := stored + [UtxoToProto(op, rest[op])];
      ops := ops + [op];
      rest := rest - {op};
    }
    assert Enumerates(ops, s.utxos);
    p := UtxoSetProto(stored, s.strict, NetworkToProto(s.network));
  }

  // One of the first `i` records is that of the outpoint.
  ghost predicate StoredBefore(ps: seq<UtxoProto>, i: nat, op: OutPoint)
    requires i <= |ps|
  {
    exists j :: 0 <= j < i && OutPointFromProto(ps[j].outpoint) == Some(op)
  }

  lemma {:induction false} OneMoreStored(ps: seq<UtxoProto>, i: nat, u: Utxos)
    requires i < |ps| && UtxosFromProto(ps[..i]) == Some(u)
    ensures UtxosFromProto(ps[..i + 1]) ==
            match UtxoFromProto(ps[i])
            case None => None
            case Some(x) => if x.0 in u && x.0.txid !in DUPLICATE_TX_IDS then None else Some(u[x.0 := x.1])
    ensures forall op | StoredBefore(ps, i, op) :: StoredBefore(ps, i + 1, op)
    ensures UtxoFromProto(ps[i]).Some? ==>
              && StoredBefore(ps, i + 1, UtxoFromProto(ps[i]).value.0)
              && (StoredOnce(ps) ==> !StoredBefore(ps, i, UtxoFromProto(ps[i]).value.0))
  {
    assert ps[..i + 1][..i] == ps[..i];
  }

  /** Rebuilds the set and its index; `ok` is false where the source panics. */
  method UtxoSetFromProto(p: UtxoSetProto) returns (ok: bool, s: UtxoSet)
    ensures fresh(s)
    ensures ok <==> NetworkFromProto(p.network).Some? && UtxosFromProto(p.utxos).Some?
    ensures ok ==> s.Valid() && Some(s.utxos) == UtxosFromProto(p.utxos)
    ensures ok ==> s.strict == p.strict && Some(s.network) == NetworkFromProto(p.network)
    ensures ok && StoredOnce(p.utxos) ==> s.repeated == {}
  {
    var network := NetworkFromProto(p.network);
    s := new UtxoSet(p.strict, if network.Some? then network.value else Mainnet);
    if network.None? {
      return false, s;
    }
    for i := 0 to |p.utxos|
      invariant fresh(s) && s.Valid() && s.strict == p.strict && Some(s.network) == network
      invariant UtxosFromProto(p.utxos[..i]) == Some(s.utxos)
      invariant StoredOnce(p.utxos) ==> s.repeated == {}
      invariant forall op | op in s.utxos :: StoredBefore(p.utxos, i, op)
    {
      var x := UtxoFromProto(p.utxos[i]);
      OneMoreStored(p.utxos, i, s.utxos);
      if x.None? {
        NoneStays(p.utxos, i + 1);
        return false, s;
      }
      ok := s.InsertOutpoint(x.value.0, x.value.1.output, x.value.1.height);
      if !ok {
        NoneStays(p.utxos, i + 1);
        return;
      }
    }
    assert p.utxos[..|p.utxos|] == p.utxos;
    ok := true;
  }

  lemma {:induction false} NoneStays(ps: seq<UtxoProto>, i: nat)
    requires i <= |ps| && UtxosFromProto(ps[..i]).None?
    ensures UtxosFromProto(ps).None?
  {
    if i < |ps| {
      assert ps[..|ps| - 1][..i] == ps[..i];
      NoneStays(ps[..|ps| - 1], i);
    } else {
      assert ps[..i] == ps;
    }
  }

  /** Stores the whole state. */
  method StateToProto(s: State) returns (p: StateProto)
    ensures p.utxos.Some? && Stores(p.utxos.value.utxos, s.utxos.utxos)
    ensures p == StateProto(s.height, HashToProto(s.latestStableBlockHash),
                            Some(UtxoSetProto(p.utxos.value.utxos, s.utxos.strict, NetworkToProto(s.utxos.network))),
                            Some(BlockForestProto(s.unstableBlocks.delta, TreesToProto(s.unstableBlocks.trees))))
  {
    var utxos := UtxoSetToProto(s.utxos);
    p := StateProto(s.height, HashToProto(s.latestStableBlockHash), Some(utxos),
                    Some(BlockForestProto(s.unstableBlocks.delta, TreesToProto(s.unstableBlocks.trees))));
  }

  /** Rebuilds the whole state; `None` is a panic. */
  method StateFromProto(p: StateProto) returns (r: Option<State>)
    ensures r.Some? <==>
            && HashFromProto(p.latestStableBlockHash).Some?
            && p.utxos.Some? && NetworkFromProto(p.utxos.value.network).Some?
            && UtxosFromProto(p.utxos.value.utxos).Some?
            && p.unstableBlocks.Some? && TreesFromProto(p.unstableBlocks.value.trees).Some?
    ensures r.Some? ==>
              var s := r.value;
              && fresh(s) && fresh(s.utxos) && fresh(s.unstableBlocks)
              && s.height == p.height && Some(s.latestStableBlockHash) == HashFromProto(p.latestStableBlockHash)
              && s.utxos.Valid() && s.utxos.strict == p.utxos.value.strict
              && Some(s.utxos.network) == NetworkFromProto(p.utxos.value.network)
              && Some(s.utxos.utxos) == UtxosFromProto(p.utxos.value.utxos)
              && (StoredOnce(p.utxos.value.utxos) ==> s.utxos.repeated == {})
              && s.unstableBlocks.delta == p.unstableBlocks.value.delta
              && Some(s.unstableBlocks.trees) == TreesFromProto(p.unstableBlocks.value.trees)
  {
    var anchor := HashFromProto(p.latestStableBlockHash);
    if anchor.None? || p.utxos.None? {
      return None;
    }
    var ok, utxos := UtxoSetFromProto(p.utxos.value);
    if !ok || p.unstableBlocks.None? {
      return None;
    }
    var trees := TreesFromProto(p.unstableBlocks.value.trees);
    if trees.None? {
      return None;
    }
    var forest := new BlockForest(p.unstableBlocks.value.delta);
    forest.trees := trees.value;
    var s := new State.FromParts(p.height, anchor.value, utxos, forest);
    r := Some(s);
  }

  /** Stores a state and rebuilds it: this never panics, and gives the same height, anchor,
      forest and outputs, and the same index up to the order within each list, except for
      addresses with repeated entries. */
  method Reload(s: State) returns (r: Option<State>)
    requires s.Valid()
    ensures r.Some? && fresh(r.value) && r.value.Valid()
    ensures r.value.View() == s.View() && r.value.unstableBlocks.delta == s.unstableBlocks.delta
    ensures r.value.utxos.network == s.utxos.network && r.value.utxos.repeated == {}
    ensures forall a | s.utxos.Clear(a) :: SameListed(s.utxos.addressToOutpoints, r.value.utxos.addressToOutpoints, a)
  {
    var p := StateToProto(s);
    UtxosRoundTrip(p.utxos.value.utxos, s.utxos.utxos);
    TreesRoundTrip(s.unstableBlocks.trees);
    r := StateFromProto(p);
    SameLists(s.utxos, r.value.utxos);
  }

  lemma {:induction false} SameLists(s: UtxoSet, r: UtxoSet)
    requires s.Valid() && r.Valid() && s.utxos == r.utxos && s.network == r.network && r.repeated == {}
    ensures forall a | s.Clear(a) :: SameListed(s.addressToOutpoints, r.addressToOutpoints, a)
  {
    forall a | s.Clear(a) ensures SameListed(s.addressToOutpoints, r.addressToOutpoints, a) {
      SameList(s.utxos, s.addressToOutpoints, r.addressToOutpoints, s.network, s.repeated, r.repeated, a);
    }
  }
}
