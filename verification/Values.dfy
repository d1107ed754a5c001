/** The value held by a set of outputs. */
module Values {
  import opened Bitcoin
  import opened UtxoSets

  ghost function Total(u: Utxos): nat
    decreases |u|
  {
    if u == map[] then 0
    else
      var op :| op in u;
      u[op].output.value + Total(u - {op})
  }

  // The total does not depend on the order of summation.
  lemma {:induction false} TotalRemove(u: Utxos, op: OutPoint)
    requires op in u
    ensures Total(u) == u[op].output.value + Total(u - {op})
    decreases |u|
  {
    var first :| op in u && first in u && Total(u) == u[first].output.value + Total(u - {first});
    if first != op {
      TotalRemove(u - {first}, op);
      TotalRemove(u - {op}, first);
      assert u - {first} - {op} == u - {op} - {first};
    }
  }

  lemma {:induction false} TotalInsert(u: Utxos, op: OutPoint, utxo: Utxo)
    requires op !in u
    ensures Total(u[op := utxo]) == Total(u) + utxo.output.value
  {
    TotalRemove(u[op := utxo], op);
    assert u[op := utxo] - {op} == u;
  }

  // Two disjoint sets add up.
  lemma {:induction false} TotalUnion(u: Utxos, v: Utxos)
    requires u.Keys !! v.Keys
    ensures Total(u + v) == Total(u) + Total(v)
    decreases |v|
  {
    if v == map[] {
      assert u + v == u;
    } else {
      var op :| op in v;
      TotalRemove(v, op);
      TotalUnion(u, v - {op});
      TotalInsert(u + (v - {op}), op, v[op]);
      AddBack(u, v, op);
    }
  }

  lemma {:induction false} AddBack(u: Utxos, v: Utxos, op: OutPoint)
    requires op in v
    ensures u + v == (u + (v - {op}))[op := v[op]]
  {
  }

  // The part of the set at the given outpoints.
  ghost function At(u: Utxos, ops: set<OutPoint>): Utxos {
    map op | op in u && op in ops :: u[op]
  }

  lemma {:induction false} TotalSplit(u: Utxos, ops: set<OutPoint>)
    ensures Total(u) == Total(u - ops) + Total(At(u, ops))
  {
    TotalUnion(u - ops, At(u, ops));
    assert (u - ops) + At(u, ops) == u;
  }

  // A part holds no more than the whole.
  lemma {:induction false} TotalPart(part: Utxos, u: Utxos)
    requires forall op | op in part :: op in u && part[op].output == u[op].output
    ensures Total(part) <= Total(u)
    decreases |part|
  {
    if part != map[] {
      var op :| op in part;
      TotalRemove(part, op);
      TotalRemove(u, op);
      TotalPart(part - {op}, u - {op});
    }
  }

  // ---- The sum over a set of answers ----

  ghost function Sum(s: set<(OutPoint, TxOut, nat)>): nat
    decreases |s|
  {
    if s == {} then 0
    else
      var x :| x in s;
      x.1.value + Sum(s - {x})
  }

  lemma {:induction false} SumRemove(s: set<(OutPoint, TxOut, nat)>, x: (OutPoint, TxOut, nat))
    requires x in s
    ensures Sum(s) == x.1.value + Sum(s - {x})
    decreases |s|
  {
    var first :| first in s && Sum(s) == first.1.value + Sum(s - {first});
    if first != x {
      SumRemove(s - {first}, x);
      SumRemove(s - {x}, first);
      assert s - {first} - {x} == s - {x} - {first};
    }
  }

  // Summing the answers is summing the outputs.
  lemma {:induction false} SumIsTotal(u: Utxos)
    ensures Sum(ToSet(u)) == Total(u)
    decreases |u|
  {
    if u == map[] {
      assert ToSet(u) == {};
    } else {
      var op :| op in u;
      var x := (op, u[op].output, u[op].height);
      TotalRemove(u, op);
      SumRemove(ToSet(u), x);
      ToSetRemove(u, op);
      SumIsTotal(u - {op});
    }
  }

  lemma {:induction false} ToSetRemove(u: Utxos, op: OutPoint)
    requires op in u
    ensures (op, u[op].output, u[op].height) in ToSet(u)
    ensures ToSet(u) - {(op, u[op].output, u[op].height)} == ToSet(u - {op})
  {
    var v := u - {op};
    forall x | x in ToSet(v) ensures x in ToSet(u) && x != (op, u[op].output, u[op].height) {
      assert x.0 in v;
    }
    forall x | x in ToSet(u) && x.0 != op ensures x in ToSet(v) {
      assert x.0 in v;
    }
  }
}
