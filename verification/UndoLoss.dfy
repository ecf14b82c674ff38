/**
 Undoing a block with undo data that has been on disk (main.cpp:
 DisconnectBlock; core.h: CTxInUndo).  A wrong amount that is restored is never
 put right: it is still there in the end, or it is noticed when the outputs of
 the block are compared.  Main result: DisconnectExactly.
 */
module UndoLoss {
  import opened Coins
  import opened Utxo
  import opened DiskForm
  import opened UndoFiles

  /** An output that is unspent in u is missing from w or another one there. */
  predicate Wrong(w: UtxoSet, u: UtxoSet, t: Hash256, n: nat) {
    && Lookup(u, t).IsAvailable(n)
    && !(n < |Lookup(w, t).vout| && Lookup(w, t).vout[n] == Lookup(u, t).vout[n])
  }

  lemma ViewIsRight(w: UtxoSet, u: UtxoSet, t: Hash256, n: nat)
    requires ViewOf(w, u)
    ensures !Wrong(w, u, t, n)
  {
    assert Lookup(w, t).Shows(Lookup(u, t));
  }

  /** Restoring another output leaves it wrong. */
  lemma RestoreWrong(u: UtxoSet, out: OutPoint, w: UtxoSet, undo: TxInUndo, t: Hash256, n: nat)
    requires Available(u, out) && Wrong(w, SpendInput(u, out), t, n)
    requires undo.nHeight == InputUndo(u, out).nHeight
    ensures Wrong(RestoreInput(w, out, undo).0, u, t, n)
  {
    if t == out.hash {
      SpentAt(Lookup(u, t), out.n, n);
    }
  }

  lemma {:induction false} RestoreAllWrong(u: UtxoSet, vin: seq<OutPoint>, w: UtxoSet, undos: seq<TxInUndo>,
                                           t: Hash256, n: nat)
    requires HaveInputs(u, vin) && Distinct(vin) && SameHeights(undos, InputUndos(u, vin))
    requires Wrong(w, SpendAll(u, vin), t, n)
    ensures Wrong(RestoreAll(w, vin, undos).0, u, t, n)
    decreases |vin|
  {
    if vin != [] {
      var k := |vin| - 1;
      SpendNeverFails(u, vin, k);
      HeightsOfPrefix(u, vin, undos);
      RestoreWrong(SpendAll(u, vin[..k]), vin[k], w, undos[k], t, n);
      RestoreAllWrong(u, vin[..k], RestoreInput(w, vin[k], undos[k]).0, undos[..k], t, n);
    }
  }

  /** Undo data that may have other amounts, but says the same about which outputs were the last. */
  predicate SameHeights(undos: seq<TxInUndo>, exact: seq<TxInUndo>) {
    |undos| == |exact| && forall i :: 0 <= i < |undos| ==> undos[i].nHeight == exact[i].nHeight
  }

  lemma HeightsOfPrefix(u: UtxoSet, vin: seq<OutPoint>, undos: seq<TxInUndo>)
    requires vin != [] && SameHeights(undos, InputUndos(u, vin))
    ensures var k := |vin| - 1;
            && SameHeights(undos[..k], InputUndos(u, vin[..k]))
            && undos[k].nHeight == InputUndo(SpendAll(u, vin[..k]), vin[k]).nHeight
            && InputUndos(u, vin)[k] == InputUndo(SpendAll(u, vin[..k]), vin[k])
            && InputUndos(u, vin)[..k] == InputUndos(u, vin[..k])
  {
    var k := |vin| - 1;
    var exact := InputUndos(u, vin);
    assert exact[..k] == InputUndos(u, vin[..k]);
    forall i | 0 <= i < k ensures undos[..k][i].nHeight == exact[..k][i].nHeight {
      assert undos[i].nHeight == exact[i].nHeight;
    }
  }

  lemma RestoreLoses(u: UtxoSet, out: OutPoint, w: UtxoSet, undo: TxInUndo)
    requires Available(u, out) && undo.txout != InputUndo(u, out).txout
    ensures Wrong(RestoreInput(w, out, undo).0, u, out.hash, out.n)
  {
  }

  /** An amount that differs makes an output wrong. */
  lemma {:induction false} RestoreAllLoses(u: UtxoSet, vin: seq<OutPoint>, w: UtxoSet, undos: seq<TxInUndo>, j: nat)
    returns (t: Hash256, n: nat)
    requires HaveInputs(u, vin) && Distinct(vin) && SameHeights(undos, InputUndos(u, vin))
    requires j < |vin| && undos[j].txout != InputUndos(u, vin)[j].txout
    ensures Wrong(RestoreAll(w, vin, undos).0, u, t, n)
    decreases |vin|
  {
    var k := |vin| - 1;
    var early, first := vin[..k], undos[..k];
    var u1, w1 := SpendAll(u, early), RestoreInput(w, vin[k], undos[k]).0;
    SpendNeverFails(u, vin, k);
    EarlierInputs(u, vin, early);
    HeightsOfPrefix(u, vin, undos);
    if j == k {
      t, n := vin[k].hash, vin[k].n;
      RestoreLoses(u1, vin[k], w, undos[k]);
      RestoreAllWrong(u, early, w1, first, t, n);
    } else {
      t, n := RestoreAllLoses(u, early, w1, first, j);
    }
  }

  lemma EarlierInputs(u: UtxoSet, vin: seq<OutPoint>, early: seq<OutPoint>)
    requires HaveInputs(u, vin) && Distinct(vin) && early <= vin
    ensures HaveInputs(u, early) && Distinct(early)
  {
  }

  /** When outputs are compared with the block, a wrong one is noticed. */
  lemma RemoveWrong(u: UtxoSet, tx: Transaction, nHeight: int, w: UtxoSet, t: Hash256, n: nat)
    requires Wrong(w, u[tx.txid := FromTx(tx, nHeight)], t, n)
    ensures var (r, clean) := RemoveOutputs(w, tx, nHeight);
            clean ==> t != tx.txid && Wrong(r, u, t, n)
  {
    if t == tx.txid {
      var seen, block := Lookup(w, t), FromTx(tx, nHeight);
      var outs := Trimmed(Cleared(seen.vout));
      assert forall i :: 0 <= i < |outs| ==> outs[i] == Cleared(seen.vout)[i];
    }
  }

  lemma {:induction false} UndoTxWrong(u: UtxoSet, tx: Transaction, nHeight: int, w: UtxoSet, undos: seq<TxInUndo>,
                                       t: Hash256, n: nat)
    requires !tx.IsCoinBase() && HaveInputs(u, tx.vin) && Distinct(tx.vin)
    requires SameHeights(undos, InputUndos(u, tx.vin)) && Wrong(w, ApplyTx(u, tx, nHeight), t, n)
    ensures var (r, clean) := UndoTx(w, tx, undos, nHeight); clean ==> Wrong(r, u, t, n)
  {
    var s := SpendAll(u, tx.vin);
    RemoveWrong(s, tx, nHeight, w, t, n);
    var (w1, clean1) := RemoveOutputs(w, tx, nHeight);
    if clean1 {
      RestoreAllWrong(u, tx.vin, w1, undos, t, n);
    }
  }

  predicate BlockHeights(undos: seq<seq<TxInUndo>>, exact: seq<seq<TxInUndo>>) {
    |undos| == |exact| && forall i :: 0 <= i < |undos| ==> SameHeights(undos[i], exact[i])
  }

  /** The last transaction of a block and the undo data before it. */
  lemma LastUndo(u: UtxoSet, vtx: seq<Transaction>, nHeight: int, undos: seq<seq<TxInUndo>>)
    requires Connectable(u, vtx, nHeight) && |vtx| > 1 && BlockHeights(undos, BlockUndo(u, vtx, nHeight))
    ensures var k := |vtx| - 1;
            var u1 := ApplyTxs(u, vtx[..k], nHeight);
            && |undos| == k && Connectable(u, vtx[..k], nHeight)
            && BlockHeights(undos[..k - 1], BlockUndo(u, vtx[..k], nHeight))
            && SameHeights(undos[k - 1], InputUndos(u1, vtx[k].vin)) && |undos[k - 1]| == |vtx[k].vin|
            && BlockUndo(u, vtx, nHeight)[k - 1] == InputUndos(u1, vtx[k].vin)
            && BlockUndo(u, vtx, nHeight)[..k - 1] == BlockUndo(u, vtx[..k], nHeight)
            && !vtx[k].IsCoinBase() && HaveInputs(u1, vtx[k].vin) && Distinct(vtx[k].vin)
  {
    var k := |vtx| - 1;
    var exact := BlockUndo(u, vtx, nHeight);
    LastTransaction(u, vtx, nHeight);
    UndoOfLast(u, vtx, nHeight);
    assert SameHeights(undos[k - 1], exact[k - 1]);
    var first, firstExact := undos[..k - 1], exact[..k - 1];
    forall i | 0 <= i < |first| ensures SameHeights(first[i], firstExact[i]) {
      assert SameHeights(undos[i], exact[i]);
    }
    assert vtx[k].IsCoinBase() <==> k == 0;
  }

  lemma {:induction false} UndoTxsWrong(u: UtxoSet, vtx: seq<Transaction>, nHeight: int, w: UtxoSet,
                                        undos: seq<seq<TxInUndo>>, t: Hash256, n: nat)
    requires Connectable(u, vtx, nHeight) && vtx != [] && BlockHeights(undos, BlockUndo(u, vtx, nHeight))
    requires Wrong(w, ApplyTxs(u, vtx, nHeight), t, n) && |undos| + 1 == |vtx|
    ensures var r := UndoTxs(w, vtx, undos, nHeight); r.Undone? && r.clean ==> Wrong(r.utxo, u, t, n)
    decreases |vtx|
  {
    var k := |vtx| - 1;
    if k == 0 {
      LastTransaction(u, vtx, nHeight);
      assert vtx[0].IsCoinBase() && ApplyTxs(u, vtx[..0], nHeight) == u;
      RemoveWrong(u, vtx[0], nHeight, w, t, n);
    } else {
      var u1 := ApplyTxs(u, vtx[..k], nHeight);
      LastUndo(u, vtx, nHeight, undos);
      UndoTxWrong(u1, vtx[k], nHeight, w, undos[k - 1], t, n);
      UndoTxsUnfold(w, vtx, undos, nHeight);
      var (w0, clean0) := UndoTx(w, vtx[k], undos[k - 1], nHeight);
      if clean0 {
        UndoTxsWrong(u, vtx[..k], nHeight, w0, undos[..k - 1], t, n);
      }
    }
  }

  /** Undoing the transactions is not clean, or does not lead to a view of u. */
  ghost predicate Loses(u: UtxoSet, w: UtxoSet, vtx: seq<Transaction>, undos: seq<seq<TxInUndo>>, nHeight: int)
    requires |undos| + 1 == |vtx|
  {
    var r := UndoTxs(w, vtx, undos, nHeight);
    r.Undone? && r.clean ==> !ViewOf(r.utxo, u)
  }

  /** A wrong amount in the undo data of the last transaction is not put right by undoing the others. */
  lemma {:induction false} LastTxLoses(u: UtxoSet, vtx: seq<Transaction>, nHeight: int, w: UtxoSet,
                                       undos: seq<seq<TxInUndo>>, j: nat)
    requires |vtx| > 1 && WrongAmount(u, vtx, nHeight, undos, |vtx| - 2, j)
    ensures |vtx[|vtx| - 1].vin| == |undos[|vtx| - 2]|
    ensures var k := |vtx| - 1;
            Loses(u, UndoTx(w, vtx[k], undos[k - 1], nHeight).0, vtx[..k], undos[..k - 1], nHeight)
  {
    var k := |vtx| - 1;
    LastUndo(u, vtx, nHeight, undos);
    var u1, w1 := ApplyTxs(u, vtx[..k], nHeight), RemoveOutputs(w, vtx[k], nHeight).0;
    var w0 := UndoTx(w, vtx[k], undos[k - 1], nHeight).0;
    var t, n := RestoreAllLoses(u1, vtx[k].vin, w1, undos[k - 1], j);
    UndoTxsWrong(u, vtx[..k], nHeight, w0, undos[..k - 1], t, n);
    var r := UndoTxs(w0, vtx[..k], undos[..k - 1], nHeight);
    if r.Undone? && ViewOf(r.utxo, u) {
      ViewIsRight(r.utxo, u, t, n);
    }
  }

  /** The undo data of the block has a wrong amount at this place. */
  ghost predicate WrongAmount(u: UtxoSet, vtx: seq<Transaction>, nHeight: int, undos: seq<seq<TxInUndo>>, i: nat,
                              j: nat) {
    && Connectable(u, vtx, nHeight) && BlockHeights(undos, BlockUndo(u, vtx, nHeight))
    && i < |undos| == |vtx| - 1 && j < |undos[i]|
    && undos[i][j].txout != BlockUndo(u, vtx, nHeight)[i][j].txout
  }

  /** One wrong amount anywhere in the undo data is enough. */
  lemma {:induction false} UndoTxsLoses(u: UtxoSet, vtx: seq<Transaction>, nHeight: int, w: UtxoSet,
                                        undos: seq<seq<TxInUndo>>, i: nat, j: nat)
    requires WrongAmount(u, vtx, nHeight, undos, i, j)
    ensures Loses(u, w, vtx, undos, nHeight)
    decreases |vtx|
  {
    var k := |vtx| - 1;
    var early, first := vtx[..k], undos[..k - 1];
    LastUndoFits(u, vtx, nHeight, undos);
    var w0 := UndoTx(w, vtx[k], undos[k - 1], nHeight).0;
    if i == k - 1 {
      LastTxLoses(u, vtx, nHeight, w, undos, j);
    } else {
      EarlierAmount(u, vtx, nHeight, undos, i, j, early, first);
      UndoTxsLoses(u, early, nHeight, w0, first, i, j);
    }
    UndoLastStep(u, w, vtx, undos, nHeight, early, first);
  }

  lemma EarlierAmount(u: UtxoSet, vtx: seq<Transaction>, nHeight: int, undos: seq<seq<TxInUndo>>, i: nat, j: nat,
                      early: seq<Transaction>, first: seq<seq<TxInUndo>>)
    requires WrongAmount(u, vtx, nHeight, undos, i, j) && i < |vtx| - 2
    requires early == vtx[..|vtx| - 1] && first == undos[..|vtx| - 2]
    ensures WrongAmount(u, early, nHeight, first, i, j)
  {
    EarlierUndo(u, vtx, nHeight, undos, i, early, first);
  }

  lemma LastUndoFits(u: UtxoSet, vtx: seq<Transaction>, nHeight: int, undos: seq<seq<TxInUndo>>)
    requires Connectable(u, vtx, nHeight) && |vtx| > 1 && BlockHeights(undos, BlockUndo(u, vtx, nHeight))
    ensures |undos| == |vtx| - 1 && |undos[|vtx| - 2]| == |vtx[|vtx| - 1].vin|
  {
    LastUndo(u, vtx, nHeight, undos);
  }

  /** The undo data before the last transaction. */
  lemma EarlierUndo(u: UtxoSet, vtx: seq<Transaction>, nHeight: int, undos: seq<seq<TxInUndo>>, i: nat,
                    early: seq<Transaction>, first: seq<seq<TxInUndo>>)
    requires Connectable(u, vtx, nHeight) && |vtx| > 1 && BlockHeights(undos, BlockUndo(u, vtx, nHeight))
    requires |undos| == |vtx| - 1 && i < |vtx| - 2
    requires early == vtx[..|vtx| - 1] && first == undos[..|vtx| - 2]
    ensures Connectable(u, early, nHeight) && early != [] && BlockHeights(first, BlockUndo(u, early, nHeight))
    ensures i < |first| == |early| - 1 && first[i] == undos[i]
    ensures i < |BlockUndo(u, early, nHeight)| && BlockUndo(u, early, nHeight)[i] == BlockUndo(u, vtx, nHeight)[i]
  {
    LastUndo(u, vtx, nHeight, undos);
  }

  /** What the rest of the undoing loses, all of it loses. */
  lemma UndoLastStep(u: UtxoSet, w: UtxoSet, vtx: seq<Transaction>, undos: seq<seq<TxInUndo>>, nHeight: int,
                     early: seq<Transaction>, first: seq<seq<TxInUndo>>)
    requires |vtx| > 1 && |undos| + 1 == |vtx| && |undos[|vtx| - 2]| == |vtx[|vtx| - 1].vin|
    requires early == vtx[..|vtx| - 1] && first == undos[..|vtx| - 2]
    requires Loses(u, UndoTx(w, vtx[|vtx| - 1], undos[|vtx| - 2], nHeight).0, early, first, nHeight)
    ensures Loses(u, w, vtx, undos, nHeight)
  {
    UndoTxsUnfold(w, vtx, undos, nHeight);
  }

  // ----- exactly when disconnecting works -----

  ghost predicate AmountsStorable(undos: seq<seq<TxInUndo>>) {
    forall i, j :: 0 <= i < |undos| && 0 <= j < |undos[i]| ==> Storable(undos[i][j].txout)
  }

  predicate UndoForm(undo: TxInUndo) {
    undo.nHeight > 0 || (undo.nHeight == 0 && undo.nVersion == 0)
  }

  lemma {:induction false} InputUndosForm(u: UtxoSet, vin: seq<OutPoint>)
    requires WellFormedSet(u) && HaveInputs(u, vin) && Distinct(vin)
    ensures forall i :: 0 <= i < |vin| ==> UndoForm(InputUndos(u, vin)[i])
  {
    if vin != [] {
      var k := |vin| - 1;
      InputUndosForm(u, vin[..k]);
      SpendNeverFails(u, vin, k);
      SpendAllProperties(u, vin[..k]);
      assert Lookup(SpendAll(u, vin[..k]), vin[k].hash).nHeight > 0;
    }
  }

  predicate AllInForm(undos: seq<TxInUndo>) {
    forall i :: 0 <= i < |undos| ==> UndoForm(undos[i])
  }

  lemma {:induction false} BlockUndoForm(u: UtxoSet, vtx: seq<Transaction>, nHeight: int)
    requires Connectable(u, vtx, nHeight)
    ensures forall i :: 0 <= i < |BlockUndo(u, vtx, nHeight)| ==> AllInForm(BlockUndo(u, vtx, nHeight)[i])
    decreases |vtx|
  {
    if vtx != [] {
      var k := |vtx| - 1;
      LastUndoForm(u, vtx, nHeight);
      BlockUndoForm(u, vtx[..k], nHeight);
    }
  }

  lemma {:induction false} LastUndoForm(u: UtxoSet, vtx: seq<Transaction>, nHeight: int)
    requires Connectable(u, vtx, nHeight) && vtx != []
    ensures var k := |vtx| - 1;
            && Connectable(u, vtx[..k], nHeight)
            && (vtx[k].IsCoinBase() || AllInForm(InputUndos(ApplyTxs(u, vtx[..k], nHeight), vtx[k].vin)))
  {
    var k := |vtx| - 1;
    LastTransaction(u, vtx, nHeight);
    assert vtx[k].IsCoinBase() <==> k == 0;
    if k > 0 {
      InputUndosForm(ApplyTxs(u, vtx[..k], nHeight), vtx[k].vin);
    }
  }

  lemma ReadHeights(undos: seq<seq<TxInUndo>>, exact: seq<seq<TxInUndo>>)
    requires BlockUndoShows(undos, exact)
    ensures BlockHeights(BlockAsRead(undos), exact)
  {
    forall i | 0 <= i < |undos| ensures SameHeights(BlockAsRead(undos)[i], exact[i]) {
      assert UndosShow(undos[i], exact[i]);
      forall j | 0 <= j < |undos[i]| ensures AsRead(undos[i])[j].nHeight == exact[i][j].nHeight {
        assert undos[i][j].Shows(exact[i][j]);
      }
    }
  }

  /**
   A connected block is undone with what is read of its undo data, if the
   checksum matches: cleanly and to a view of the set before it exactly if every
   amount in the undo data is storable.
   */
  lemma {:induction false} DisconnectExactly(u: UtxoSet, vtx: seq<Transaction>, nHeight: int, w: UtxoSet,
                                             undos: seq<seq<TxInUndo>>)
    requires Connectable(u, vtx, nHeight) && vtx != [] && ViewOf(w, ApplyTxs(u, vtx, nHeight))
    requires BlockUndoShows(undos, BlockUndo(u, vtx, nHeight))
    ensures |undos| + 1 == |vtx|
    ensures var r := UndoTxs(w, vtx, BlockAsRead(undos), nHeight);
            r.Undone? && r.clean && ViewOf(r.utxo, u) <==> AmountsStorable(BlockUndo(u, vtx, nHeight))
  {
    var exact := BlockUndo(u, vtx, nHeight);
    BlockUndoLength(u, vtx, nHeight);
    if AmountsStorable(exact) {
      BlockUndoForm(u, vtx, nHeight);
      ReadShows(undos, exact);
      DisconnectInverse(u, vtx, nHeight, w, BlockAsRead(undos));
    } else {
      var i, j :| 0 <= i < |exact| && 0 <= j < |exact[i]| && !Storable(exact[i][j].txout);
      ReadHeights(undos, exact);
      ReadLoses(undos, exact, i, j);
      UndoTxsLoses(u, vtx, nHeight, w, BlockAsRead(undos), i, j);
    }
  }

  lemma ReadShows(undos: seq<seq<TxInUndo>>, exact: seq<seq<TxInUndo>>)
    requires BlockUndoShows(undos, exact) && AmountsStorable(exact)
    requires forall i :: 0 <= i < |exact| ==> AllInForm(exact[i])
    ensures AllLasting(exact) && BlockUndoShows(BlockAsRead(undos), exact)
  {
    forall i, j | 0 <= i < |exact| && 0 <= j < |exact[i]| ensures LastingUndo(exact[i][j]) {
      assert AllInForm(exact[i]);
    }
    forall i | 0 <= i < |undos| ensures UndosShow(BlockAsRead(undos)[i], exact[i]) {
      UndosRead(undos[i], exact[i]);
    }
  }

  lemma ReadLoses(undos: seq<seq<TxInUndo>>, exact: seq<seq<TxInUndo>>, i: nat, j: nat)
    requires BlockUndoShows(undos, exact) && i < |exact| && j < |exact[i]| && !Storable(exact[i][j].txout)
    ensures |undos[i]| == |exact[i]| && BlockAsRead(undos)[i][j].txout != exact[i][j].txout
  {
    assert UndosShow(undos[i], exact[i]);
    assert undos[i][j].Shows(exact[i][j]);
    DiskOutExact(exact[i][j].txout);
  }
}
