/**
 What a record of unspent outputs and undo data become when they are written
 to disk and read again (coins.h: CCoins; core.h: CTxInUndo, CTxOutCompressor).
 That reading what was written gives exactly these forms is proved in module
 CoinsCodec; here is what they keep.

 Main results: DiskOutExact, DiskCopyExact and DiskUndoExact, which say what
 survives; VersionIsLost and AmountIsLost.
 */
module DiskForm {
  import opened Coins
  import opened Amounts
  import opened VarInts

  /** Amounts that the stored form can hold; as a 64-bit number, their compressed form fits 64 bits. */
  predicate Storable(o: TxOut) {
    Compressed(o.nValue % WORD64) < WORD64
  }

  function DiskOut(o: TxOut): TxOut {
    TxOut(WrapInt64(Restored(o.nValue % WORD64)), o.script)
  }

  /** The first n outputs as they are read back; the spent ones are not written. */
  function DiskOuts(vout: seq<TxOut>, n: nat): (r: seq<TxOut>)
    ensures |r| == n
    ensures forall i :: 0 <= i < n ==>
                          r[i] == if i < |vout| && !vout[i].IsNull() then DiskOut(vout[i]) else NULL_OUT
  {
    seq(n, i requires 0 <= i => if i < |vout| && !vout[i].IsNull() then DiskOut(vout[i]) else NULL_OUT)
  }

  function DiskCopy(c: Coins): Coins {
    Coins(c.fCoinBase, Trimmed(DiskOuts(c.vout, |c.vout|)), Kept(c.nHeight), Kept(c.nVersion))
  }

  /** The version is only written with a height. */
  function DiskUndo(u: TxInUndo): TxInUndo {
    TxInUndo(DiskOut(u.txout), u.fCoinBase, u.nHeight, if u.nHeight > 0 then Kept(u.nVersion) else 0)
  }

  predicate AllStorable(vout: seq<TxOut>) {
    forall i :: 0 <= i < |vout| && !vout[i].IsNull() ==> Storable(vout[i])
  }

  lemma WrapUnsigned(x: Int64, n: nat)
    requires n < WORD64
    ensures WrapInt64(n) == x <==> n == x % WORD64
  {
  }

  /** An output survives exactly if its amount is storable. */
  lemma {:induction false} DiskOutExact(o: TxOut)
    ensures DiskOut(o) == o <==> Storable(o)
  {
    SurvivesExactly(o.nValue % WORD64);
    WrapUnsigned(o.nValue, Restored(o.nValue % WORD64));
  }

  lemma {:induction false} DiskOutsExact(vout: seq<TxOut>)
    requires forall i :: 0 <= i < |vout| && vout[i].IsNull() ==> vout[i] == NULL_OUT
    ensures DiskOuts(vout, |vout|) == vout <==> AllStorable(vout)
  {
    var r := DiskOuts(vout, |vout|);
    forall i | 0 <= i < |vout|
      ensures r[i] == vout[i] <==> vout[i].IsNull() || Storable(vout[i])
    {
      DiskOutExact(vout[i]);
    }
  }

  lemma TrimmedWhole(vout: seq<TxOut>)
    ensures Trimmed(vout) == vout <==> vout == [] || !vout[|vout| - 1].IsNull()
  {
  }

  /** A record that still has outputs survives, up to its version, exactly if they are storable. */
  lemma {:induction false} DiskCopyOuts(c: Coins)
    requires c.WellFormed()
    ensures DiskCopy(c).vout == c.vout <==> AllStorable(c.vout)
  {
    DiskOutsExact(c.vout);
    TrimmedWhole(c.vout);
    var r := DiskOuts(c.vout, |c.vout|);
    if Trimmed(r) == c.vout {
      assert r == Trimmed(r);
    }
  }

  lemma UnchangedIsCleaned(c: Coins)
    requires Trimmed(DiskOuts(c.vout, |c.vout|)) == c.vout
    ensures c.WellFormed()
  {
    assert Trimmed(DiskOuts(c.vout, |c.vout|)) == DiskOuts(c.vout, |c.vout|);
  }

  /** A record survives exactly if it is cleaned, its numbers are not negative and its outputs are storable. */
  lemma {:induction false} DiskCopyExact(c: Coins)
    ensures DiskCopy(c) == c <==> c.WellFormed() && c.nHeight >= 0 && c.nVersion >= 0 && AllStorable(c.vout)
  {
    if Trimmed(DiskOuts(c.vout, |c.vout|)) == c.vout {
      UnchangedIsCleaned(c);
    }
    if c.WellFormed() {
      DiskCopyOuts(c);
    }
  }

  /** What survives on disk up to the version; fully spent records are not written. */
  predicate Lasting(c: Coins) {
    c.IsPruned() || (c.WellFormed() && c.nHeight >= 0 && AllStorable(c.vout))
  }

  lemma {:induction false} DiskCopyShows(c: Coins)
    requires !c.IsPruned()
    ensures DiskCopy(c).Shows(c) <==> Lasting(c)
    ensures DiskCopy(c).Same(c) <==> Lasting(c) && c.nVersion >= 0
  {
    DiskCopyExact(c);
    DiskCopyExact(c.(nVersion := 0));
    assert DiskCopy(c) == DiskCopy(c.(nVersion := 0)).(nVersion := Kept(c.nVersion));
  }

  /** Undo data survives exactly if its output is storable, and its version is not negative or not written. */
  lemma {:induction false} DiskUndoExact(u: TxInUndo)
    ensures DiskUndo(u) == u <==>
            Storable(u.txout) && (if u.nHeight > 0 then u.nVersion >= 0 else u.nVersion == 0)
  {
    DiskOutExact(u.txout);
  }

  /** Undo data that shows what it should still does after it has been on disk, if its output is storable. */
  lemma {:induction false} DiskUndoShows(u: TxInUndo, exact: TxInUndo)
    requires u.Shows(exact) && (u.nHeight > 0 || exact.nVersion == 0) && Storable(exact.txout)
    ensures DiskUndo(u).Shows(exact)
  {
    DiskOutExact(exact.txout);
  }

  /**
   Spending an output and restoring it from undo data that has been on disk
   gives back the record, up to its version, exactly if the amount is storable.
   */
  lemma {:induction false} RestoredFromDisk(c: Coins, n: nat, seen: Coins)
    requires c.WellFormed() && c.IsAvailable(n) && c.nHeight > 0 && seen.Shows(Spent(c, n))
    ensures RestoredOutput(seen, n, DiskUndo(SpendUndo(c, n))).0.Shows(c) <==> Storable(c.vout[n])
  {
    var undo := SpendUndo(c, n);
    DiskOutExact(c.vout[n]);
    if Storable(c.vout[n]) {
      DiskUndoShows(undo, undo);
      SpendRestored(c, n, seen, DiskUndo(undo));
    } else {
      assert RestoredOutput(seen, n, DiskUndo(undo)).0.vout[n] == DiskOut(c.vout[n]);
    }
  }

  /** A transaction with version -1, which no rule of the chain refuses, comes back with version 127. */
  lemma VersionIsLost(c: Coins)
    requires c.nVersion == -1
    ensures DiskCopy(c).nVersion == 127
  {
  }

  /** An amount within the money range that comes back as another one, about three times as large. */
  lemma AmountIsLost(script: Script)
    ensures MoneyRange(2050248068783227219)
    ensures DiskOut(TxOut(2050248068783227219, script)) == TxOut(6098383710548170000, script)
  {
    var n := 2050248068783227219;
    assert Compressed(n) == 9 * n;
    assert Cut(9 * n) == 5488545339493355;
    var base := Base(548854533949335, 4);
    assert base == 609838371054817;
    assert Decompressed(5488545339493355) == Scaled(base, 4);
    assert Scaled(base, 4) == base * 10000;
  }
}
