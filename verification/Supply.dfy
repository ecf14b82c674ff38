/**
 Value conservation: what connecting a block does to the total worth of the
 unspent outputs (main.cpp ConnectBlock and CheckInputs, core.cpp GetValueOut,
 coins.cpp GetValueIn).
 */
module Supply {
  import opened Coins
  import opened Utxo

  ghost function Pick(keys: set<Hash256>): (t: Hash256)
    requires keys != {}
    ensures t in keys
  {
    var t :| t in keys; t
  }

  /** The worth of the records of the given transactions. */
  ghost function WorthOf(u: UtxoSet, keys: set<Hash256>): int {
    if keys == {} then 0
    else Value(Lookup(u, Pick(keys)).vout) + WorthOf(u, keys - {Pick(keys)})
  }

  /** The total worth of all unspent outputs. */
  ghost function Total(u: UtxoSet): int {
    WorthOf(u, u.Keys)
  }

  lemma {:induction false} WorthOfRemove(u: UtxoSet, keys: set<Hash256>, t: Hash256)
    requires t in keys
    ensures WorthOf(u, keys) == Value(Lookup(u, t).vout) + WorthOf(u, keys - {t})
    decreases |keys|
  {
    var p := Pick(keys);
    if p != t {
      WorthOfRemove(u, keys - {p}, t);
      WorthOfRemove(u, keys - {t}, p);
      assert keys - {p} - {t} == keys - {t} - {p};
    }
  }

  lemma {:induction false} WorthOfSame(u: UtxoSet, w: UtxoSet, keys: set<Hash256>)
    requires forall t :: t in keys ==> Value(Lookup(u, t).vout) == Value(Lookup(w, t).vout)
    ensures WorthOf(u, keys) == WorthOf(w, keys)
    decreases |keys|
  {
    if keys != {} {
      WorthOfSame(u, w, keys - {Pick(keys)});
    }
  }

  lemma {:induction false} WorthOfAbsent(u: UtxoSet, keys: set<Hash256>, extra: set<Hash256>)
    requires extra !! keys && extra !! u.Keys
    ensures WorthOf(u, keys + extra) == WorthOf(u, keys)
    decreases |extra|
  {
    if extra == {} {
      assert keys + extra == keys;
    } else {
      var t := Pick(extra);
      WorthOfAbsent(u, keys, extra - {t});
      WorthOfRemove(u, keys + extra, t);
      assert keys + extra - {t} == keys + (extra - {t});
    }
  }

  /** Records that are absent add nothing. */
  lemma WorthOfExtra(u: UtxoSet, extra: set<Hash256>)
    ensures WorthOf(u, u.Keys + extra) == Total(u)
  {
    WorthOfAbsent(u, u.Keys, extra - u.Keys);
    assert u.Keys + (extra - u.Keys) == u.Keys + extra;
  }

  lemma TotalUpdate(u: UtxoSet, t: Hash256, c: Coins)
    ensures Total(u[t := c]) == Total(u) - Value(Lookup(u, t).vout) + Value(c.vout)
  {
    var w := u[t := c];
    WorthOfExtra(u, {t});
    assert w.Keys == u.Keys + {t};
    WorthOfRemove(u, w.Keys, t);
    WorthOfRemove(w, w.Keys, t);
    WorthOfSame(u, w, w.Keys - {t});
  }

  lemma {:induction false} PrunedIsWorthless(vout: seq<TxOut>)
    requires forall i :: 0 <= i < |vout| ==> vout[i].IsNull()
    ensures Value(vout) == 0
  {
    if vout != [] {
      PrunedIsWorthless(vout[..|vout| - 1]);
    }
  }

  /** A view is worth what it shows. */
  lemma TotalOfView(u: UtxoSet, w: UtxoSet)
    requires ViewOf(u, w)
    ensures Total(u) == Total(w)
  {
    forall t: Hash256 ensures Value(Lookup(u, t).vout) == Value(Lookup(w, t).vout) {
      assert Lookup(u, t).Shows(Lookup(w, t));
      if Lookup(u, t).IsPruned() && Lookup(w, t).IsPruned() {
        PrunedIsWorthless(Lookup(u, t).vout);
        PrunedIsWorthless(Lookup(w, t).vout);
      }
    }
    WorthOfExtra(u, w.Keys);
    WorthOfExtra(w, u.Keys);
    assert u.Keys + w.Keys == w.Keys + u.Keys;
    WorthOfSame(u, w, u.Keys + w.Keys);
  }

  lemma SpendInputTotal(u: UtxoSet, out: OutPoint)
    requires Available(u, out)
    ensures Total(SpendInput(u, out)) == Total(u) - InputOutput(u, out).nValue
  {
    var c := Lookup(u, out.hash);
    TotalUpdate(u, out.hash, Spent(c, out.n));
    ValueTrimmed(c.vout[out.n := NULL_OUT]);
    ValueUpdate(c.vout, out.n, NULL_OUT);
  }

  lemma {:induction false} SpendAllTotal(u: UtxoSet, vin: seq<OutPoint>)
    requires HaveInputs(u, vin) && Distinct(vin)
    ensures Total(SpendAll(u, vin)) == Total(u) - InputSum(u, vin)
  {
    if vin != [] {
      var k := |vin| - 1;
      SpendAllTotal(u, vin[..k]);
      SpendNeverFails(u, vin, k);
      SpendAllProperties(u, vin[..k]);
      SpendInputTotal(SpendAll(u, vin[..k]), vin[k]);
    }
  }

  lemma ApplyTxTotal(u: UtxoSet, tx: Transaction, nHeight: int)
    requires Lookup(u, tx.txid).IsPruned() && TransactionOk(tx)
    requires tx.IsCoinBase() || HaveInputs(u, tx.vin)
    ensures Total(ApplyTx(u, tx, nHeight)) ==
            Total(u) - (if tx.IsCoinBase() then 0 else InputSum(u, tx.vin))
            + OutputSum(tx.vout) - UnspendableSum(tx.vout)
  {
    var s := if tx.IsCoinBase() then u else SpendAll(u, tx.vin);
    if !tx.IsCoinBase() {
      SpendAllTotal(u, tx.vin);
      SpendAllProperties(u, tx.vin);
    }
    TotalUpdate(s, tx.txid, FromTx(tx, nHeight));
    PrunedIsWorthless(Lookup(s, tx.txid).vout);
    ValueTrimmed(Cleared(tx.vout));
    ValueCleared(tx.vout);
  }

  /** Value a block sends to outputs that can never be spent. */
  function Burned(vtx: seq<Transaction>): int {
    if vtx == [] then 0 else Burned(vtx[..|vtx| - 1]) + UnspendableSum(vtx[|vtx| - 1].vout)
  }

  /** Exact conservation, and the fees counted and the value burned are never negative. */
  lemma {:induction false} AppliedTotal(u: UtxoSet, vtx: seq<Transaction>, nHeight: int)
    requires Connectable(u, vtx, nHeight) && vtx != []
    ensures Total(ApplyTxs(u, vtx, nHeight)) ==
            Total(u) + OutputSum(vtx[0].vout) - Fees(u, vtx, nHeight) - Burned(vtx)
    ensures Fees(u, vtx, nHeight) >= 0 && Burned(vtx) >= 0
    decreases |vtx|
  {
    var k := |vtx| - 1;
    var u1 := ApplyTxs(u, vtx[..k], nHeight);
    LastTransaction(u, vtx, nHeight);
    assert vtx[k].IsCoinBase() <==> k == 0;
    ApplyTxTotal(u1, vtx[k], nHeight);
    OutputSumNonNegative(vtx[k].vout);
    if k > 0 {
      AppliedTotal(u, vtx[..k], nHeight);
    }
  }

  /** A connected block adds at most its subsidy, even though the limit is computed in 64 bits. */
  lemma SupplyBound(u: UtxoSet, block: Block, nHeight: int)
    requires WellFormedSet(u) && nHeight > 0 && ConnectOk(u, block, nHeight)
    ensures Total(ApplyTxs(u, block.vtx, nHeight)) <= Total(u) + block.subsidy
  {
    AppliedTotal(u, block.vtx, nHeight);
    assert BlockValue(block.subsidy, Fees(u, block.vtx, nHeight)) <= block.subsidy + Fees(u, block.vtx, nHeight);
  }

  // ----- how large one output can be -----

  predicate ValuesOk(vout: seq<TxOut>) {
    forall i :: 0 <= i < |vout| ==> vout[i].IsNull() || vout[i].nValue >= 0
  }

  /** No unspent output has a negative value. */
  ghost predicate ValuedSet(u: UtxoSet) {
    forall t :: t in u ==> ValuesOk(u[t].vout)
  }

  lemma {:induction false} ValueNonNegative(vout: seq<TxOut>)
    requires ValuesOk(vout)
    ensures Value(vout) >= 0
  {
    if vout != [] {
      ValueNonNegative(vout[..|vout| - 1]);
    }
  }

  lemma {:induction false} WorthNonNegative(u: UtxoSet, keys: set<Hash256>)
    requires ValuedSet(u)
    ensures WorthOf(u, keys) >= 0
    decreases |keys|
  {
    if keys != {} {
      var t := Pick(keys);
      ValueNonNegative(Lookup(u, t).vout);
      WorthNonNegative(u, keys - {t});
    }
  }

  /** The total is at least the worth of any one record. */
  lemma {:induction false} RecordWithinTotal(u: UtxoSet, t: Hash256)
    requires ValuedSet(u)
    ensures Value(Lookup(u, t).vout) <= Total(u)
  {
    if t in u {
      WorthOfRemove(u, u.Keys, t);
      WorthNonNegative(u, u.Keys - {t});
    } else {
      WorthNonNegative(u, u.Keys);
    }
  }

  lemma {:induction false} SpendAllValued(u: UtxoSet, vin: seq<OutPoint>)
    requires ValuedSet(u)
    ensures ValuedSet(SpendAll(u, vin))
  {
    if vin != [] {
      var k := |vin| - 1;
      SpendAllValued(u, vin[..k]);
      SpendInputValued(SpendAll(u, vin[..k]), vin[k]);
    }
  }

  lemma SpendInputValued(u: UtxoSet, out: OutPoint)
    requires ValuedSet(u)
    ensures ValuedSet(SpendInput(u, out))
  {
    if Available(u, out) {
      var c := Lookup(u, out.hash);
      var v := c.vout[out.n := NULL_OUT];
      var s := Spent(c, out.n).vout;
      assert ValuesOk(v) && s == v[..|s|];
    }
  }

  lemma {:induction false} ApplyTxsValued(u: UtxoSet, vtx: seq<Transaction>, nHeight: int)
    requires ValuedSet(u) && forall i :: 0 <= i < |vtx| ==> TransactionOk(vtx[i])
    ensures ValuedSet(ApplyTxs(u, vtx, nHeight))
  {
    if vtx != [] {
      var k := |vtx| - 1;
      var u1 := ApplyTxs(u, vtx[..k], nHeight);
      ApplyTxsValued(u, vtx[..k], nHeight);
      SpendAllValued(u1, vtx[k].vin);
      var vout := FromTx(vtx[k], nHeight).vout;
      assert TransactionOk(vtx[k]);
      assert forall i :: 0 <= i < |vout| ==> vout[i] == Cleared(vtx[k].vout)[i];
    }
  }

  lemma {:induction false} SpendAllElsewhere(u: UtxoSet, vin: seq<OutPoint>, t: Hash256)
    requires forall i :: 0 <= i < |vin| ==> vin[i].hash != t
    ensures Lookup(SpendAll(u, vin), t) == Lookup(u, t)
  {
    if vin != [] {
      SpendAllElsewhere(u, vin[..|vin| - 1], t);
    }
  }

  /** The coinbase of a block is too young to be spent in it. */
  lemma CoinbaseNotSpent(u: UtxoSet, tx: Transaction, nHeight: int, t: Hash256)
    requires InputsOk(u, tx, nHeight) && Lookup(u, t).fCoinBase && Lookup(u, t).nHeight == nHeight
    ensures Lookup(SpendAll(u, tx.vin), t) == Lookup(u, t)
  {
    forall i | 0 <= i < |tx.vin| ensures tx.vin[i].hash != t {
      assert Mature(Lookup(u, tx.vin[i].hash), nHeight);
    }
    SpendAllElsewhere(u, tx.vin, t);
  }

  lemma {:induction false} CoinbaseStays(u: UtxoSet, vtx: seq<Transaction>, nHeight: int)
    requires Connectable(u, vtx, nHeight) && vtx != []
    ensures Lookup(ApplyTxs(u, vtx, nHeight), vtx[0].txid) == FromTx(vtx[0], nHeight)
    decreases |vtx|
  {
    var k := |vtx| - 1;
    assert vtx[0].IsCoinBase();
    if k > 0 {
      LastTransaction(u, vtx, nHeight);
      CoinbaseStays(u, vtx[..k], nHeight);
      CoinbaseNotSpent(ApplyTxs(u, vtx[..k], nHeight), vtx[k], nHeight, vtx[0].txid);
      assert vtx[k].txid != vtx[0].txid && !vtx[k].IsCoinBase();
    }
  }

  lemma {:induction false} BurnedFromStart(vtx: seq<Transaction>)
    requires vtx != [] && forall i :: 0 <= i < |vtx| ==> TransactionOk(vtx[i])
    ensures Burned(vtx) >= UnspendableSum(vtx[0].vout)
    decreases |vtx|
  {
    var k := |vtx| - 1;
    assert TransactionOk(vtx[k]);
    OutputSumNonNegative(vtx[k].vout);
    if k > 0 {
      BurnedFromStart(vtx[..k]);
    }
  }

  lemma CoinbaseWorth(tx: Transaction, nHeight: int)
    requires TransactionOk(tx)
    ensures Value(FromTx(tx, nHeight).vout) == OutputSum(tx.vout) - UnspendableSum(tx.vout)
  {
    ValueTrimmed(Cleared(tx.vout));
    ValueCleared(tx.vout);
  }

  /** Fees are paid from what was there before the block. */
  lemma {:induction false} FeesWithinTotal(u: UtxoSet, vtx: seq<Transaction>, nHeight: int)
    requires Connectable(u, vtx, nHeight) && vtx != [] && ValuedSet(u)
    ensures Fees(u, vtx, nHeight) <= Total(u)
  {
    AppliedTotal(u, vtx, nHeight);
    CoinbaseStays(u, vtx, nHeight);
    ApplyTxsValued(u, vtx, nHeight);
    RecordWithinTotal(ApplyTxs(u, vtx, nHeight), vtx[0].txid);
    assert TransactionOk(vtx[0]);
    CoinbaseWorth(vtx[0], nHeight);
    BurnedFromStart(vtx);
  }

  /** So are the outputs of every transaction but the coinbase. */
  lemma {:induction false} OutputsWithinTotal(u: UtxoSet, vtx: seq<Transaction>, nHeight: int)
    requires Connectable(u, vtx, nHeight) && |vtx| > 1 && ValuedSet(u)
    ensures OutputSum(vtx[|vtx| - 1].vout) <= Total(u)
  {
    var k := |vtx| - 1;
    var first, tx := vtx[..k], vtx[k];
    var u1 := ApplyTxs(u, first, nHeight);
    LastTransaction(u, vtx, nHeight);
    AppliedTotal(u, first, nHeight);
    CoinbaseStays(u, first, nHeight);
    ApplyTxsValued(u, first, nHeight);
    CoinbaseNotSpent(u1, tx, nHeight, vtx[0].txid);
    SpendAllTotal(u1, tx.vin);
    SpendAllValued(u1, tx.vin);
    RecordWithinTotal(SpendAll(u1, tx.vin), vtx[0].txid);
    CoinbaseWorth(vtx[0], nHeight);
    BurnedFromStart(first);
  }

  lemma {:induction false} CoinbaseBounded(u: UtxoSet, block: Block, nHeight: int)
    requires Connectable(u, block.vtx, nHeight) && ValuedSet(u) && block.vtx != []
    requires OutputSum(block.vtx[0].vout) <= BlockValue(block.subsidy, Fees(u, block.vtx, nHeight))
    ensures OutputSum(block.vtx[0].vout) <= Total(u) + block.subsidy
  {
    FeesWithinTotal(u, block.vtx, nHeight);
    AppliedTotal(u, block.vtx, nHeight);
    ValueAtMost(block.subsidy, Fees(u, block.vtx, nHeight));
  }

  /** No output is larger than what was there before the block and its subsidy together. */
  lemma {:induction false} OutputsBounded(u: UtxoSet, block: Block, nHeight: int, i: nat)
    requires WellFormedSet(u) && ValuedSet(u) && nHeight > 0 && ConnectOk(u, block, nHeight) && i < |block.vtx|
    ensures OutputSum(block.vtx[i].vout) <= Total(u) + block.subsidy
  {
    assert Connectable(u, block.vtx, nHeight);
    if i == 0 {
      CoinbaseBounded(u, block, nHeight);
    } else {
      LaterOutputs(u, block.vtx, nHeight, i);
    }
  }

  lemma {:induction false} LaterOutputs(u: UtxoSet, vtx: seq<Transaction>, nHeight: int, i: nat)
    requires Connectable(u, vtx, nHeight) && ValuedSet(u) && 0 < i < |vtx|
    ensures OutputSum(vtx[i].vout) <= Total(u)
  {
    ConnectablePrefix(u, vtx, nHeight, i + 1);
    OutputsWithinTotal(u, vtx[..i + 1], nHeight);
    assert vtx[..i + 1][i] == vtx[i];
  }

  lemma ValueAtMost(subsidy: nat, fees: nat)
    ensures BlockValue(subsidy, fees) <= subsidy + fees
  {
  }

  lemma {:induction false} ConnectablePrefix(u: UtxoSet, vtx: seq<Transaction>, nHeight: int, i: nat)
    requires Connectable(u, vtx, nHeight) && i <= |vtx|
    ensures Connectable(u, vtx[..i], nHeight)
    decreases |vtx|
  {
    if i == |vtx| {
      assert vtx[..i] == vtx;
    } else {
      var k := |vtx| - 1;
      LastTransaction(u, vtx, nHeight);
      ConnectablePrefix(u, vtx[..k], nHeight, i);
      assert vtx[..k][..i] == vtx[..i];
    }
  }

  lemma {:induction false} OutputWithinSum(vout: seq<TxOut>, j: nat)
    requires j < |vout| && forall i :: 0 <= i < |vout| ==> vout[i].nValue >= 0
    ensures vout[j].nValue <= OutputSum(vout)
  {
    var k := |vout| - 1;
    OutputSumNonNegative(vout[..k]);
    if j < k {
      OutputWithinSum(vout[..k], j);
    }
  }
}
