/**
 The set of unspent outputs as a map, and what connecting and disconnecting a
 block do to it (main.cpp: CheckTransaction, CheckInputs, UpdateCoins,
 ConnectBlock, DisconnectBlock).  These are the specifications of the methods
 of modules CoinsViews and Validation.

 Main result: DisconnectInverse (undo data restores the set).
 */
module Utxo {
  import opened Coins
  import opened VarInts

  type UtxoSet = map<Hash256, Coins>

  const COINBASE_MATURITY: int := 30
  const COINBASE_MATURITY_NEW: int := 30
  const COINBASE_MATURITY_SWITCH: int := 1_180_000

  /** The record of a transaction; an absent one reads as the empty record. */
  function Lookup(u: UtxoSet, t: Hash256): Coins {
    if t in u then u[t] else EMPTY_COINS
  }

  /** Two sets agree up to fully spent records, which may be present or absent. */
  ghost predicate SameView(u: UtxoSet, w: UtxoSet) {
    forall t: Hash256 :: Lookup(u, t).Same(Lookup(w, t))
  }

  /** w shows u: equal up to fully spent records and versions that have been on disk. */
  ghost predicate ViewOf(w: UtxoSet, u: UtxoSet) {
    forall t: Hash256 :: Lookup(w, t).Shows(Lookup(u, t))
  }

  /** Without negative versions a view is exact. */
  lemma ViewIsSame(w: UtxoSet, u: UtxoSet)
    requires ViewOf(w, u) && forall t :: t in u ==> u[t].IsPruned() || u[t].nVersion >= 0
    ensures SameView(w, u)
  {
    forall t: Hash256 ensures Lookup(w, t).Same(Lookup(u, t)) {
      assert Lookup(w, t).Shows(Lookup(u, t));
    }
  }

  /** Undo data, up to versions that have been on disk. */
  ghost predicate UndosShow(undos: seq<TxInUndo>, exact: seq<TxInUndo>) {
    |undos| == |exact| && forall i :: 0 <= i < |undos| ==> undos[i].Shows(exact[i])
  }

  ghost predicate BlockUndoShows(undos: seq<seq<TxInUndo>>, exact: seq<seq<TxInUndo>>) {
    |undos| == |exact| && forall i :: 0 <= i < |undos| ==> UndosShow(undos[i], exact[i])
  }

  /** Every unspent record is trimmed and was created above the genesis block. */
  ghost predicate WellFormedSet(u: UtxoSet) {
    forall t :: t in u ==> u[t].WellFormed() && (u[t].IsPruned() || u[t].nHeight > 0)
  }

  // ----- spending -----

  predicate Available(u: UtxoSet, out: OutPoint) {
    Lookup(u, out.hash).IsAvailable(out.n)
  }

  function InputOutput(u: UtxoSet, out: OutPoint): TxOut {
    if Available(u, out) then Lookup(u, out.hash).vout[out.n] else NULL_OUT
  }

  predicate HaveInputs(u: UtxoSet, vin: seq<OutPoint>) {
    forall i :: 0 <= i < |vin| ==> Available(u, vin[i])
  }

  predicate Distinct<T(==)>(s: seq<T>) {
    forall i, j :: 0 <= i < j < |s| ==> s[i] != s[j]
  }

  /** Spending an outpoint that is not available would fail an assertion; here it changes nothing. */
  function SpendInput(u: UtxoSet, out: OutPoint): UtxoSet {
    if Available(u, out) then u[out.hash := Spent(Lookup(u, out.hash), out.n)] else u
  }

  function InputUndo(u: UtxoSet, out: OutPoint): TxInUndo {
    if Available(u, out) then SpendUndo(Lookup(u, out.hash), out.n) else TxInUndo(NULL_OUT, false, 0, 0)
  }

  function SpendAll(u: UtxoSet, vin: seq<OutPoint>): UtxoSet {
    if vin == [] then u else SpendInput(SpendAll(u, vin[..|vin| - 1]), vin[|vin| - 1])
  }

  function InputUndos(u: UtxoSet, vin: seq<OutPoint>): (r: seq<TxInUndo>)
    ensures |r| == |vin|
  {
    if vin == [] then []
    else InputUndos(u, vin[..|vin| - 1]) + [InputUndo(SpendAll(u, vin[..|vin| - 1]), vin[|vin| - 1])]
  }

  lemma SpendInputProperties(u: UtxoSet, out: OutPoint)
    ensures WellFormedSet(u) ==> WellFormedSet(SpendInput(u, out))
    ensures forall o: OutPoint :: Available(SpendInput(u, out), o) <==> o != out && Available(u, o)
    ensures forall o: OutPoint :: Available(SpendInput(u, out), o) ==>
              InputOutput(SpendInput(u, out), o) == InputOutput(u, o)
    ensures forall t: Hash256 :: Lookup(u, t).IsPruned() ==> Lookup(SpendInput(u, out), t).IsPruned()
  {
    if Available(u, out) {
      SpentProperties(Lookup(u, out.hash), out.n);
      if WellFormedSet(u) {
        SpentWellFormed(Lookup(u, out.hash), out.n);
      }
      assert forall o: OutPoint :: o == OutPoint(o.hash, o.n);
    }
  }

  /** Exactly the outpoints spent stop being available, and nothing is created. */
  lemma {:induction false} SpendAllProperties(u: UtxoSet, vin: seq<OutPoint>)
    ensures WellFormedSet(u) ==> WellFormedSet(SpendAll(u, vin))
    ensures forall o: OutPoint :: Available(SpendAll(u, vin), o) <==> o !in vin && Available(u, o)
    ensures forall o: OutPoint :: Available(SpendAll(u, vin), o) ==>
              InputOutput(SpendAll(u, vin), o) == InputOutput(u, o)
    ensures forall t: Hash256 :: Lookup(u, t).IsPruned() ==> Lookup(SpendAll(u, vin), t).IsPruned()
  {
    if vin != [] {
      var k := |vin| - 1;
      SpendAllProperties(u, vin[..k]);
      SpendInputProperties(SpendAll(u, vin[..k]), vin[k]);
      assert vin == vin[..k] + [vin[k]];
    }
  }

  /** The assertion inside UpdateCoins: with all inputs present and distinct, each spend finds its output. */
  lemma SpendNeverFails(u: UtxoSet, vin: seq<OutPoint>, i: nat)
    requires HaveInputs(u, vin) && Distinct(vin) && i < |vin|
    ensures Available(SpendAll(u, vin[..i]), vin[i])
  {
    SpendAllProperties(u, vin[..i]);
  }

  // ----- restoring -----

  function RestoreInput(w: UtxoSet, out: OutPoint, undo: TxInUndo): (UtxoSet, bool) {
    var (c, clean) := RestoredOutput(Lookup(w, out.hash), out.n, undo);
    (w[out.hash := c], clean)
  }

  /** Inputs are restored from the last one to the first. */
  function RestoreAll(w: UtxoSet, vin: seq<OutPoint>, undos: seq<TxInUndo>): (UtxoSet, bool)
    requires |vin| == |undos|
    decreases |vin|
  {
    if vin == [] then (w, true)
    else
      var k := |vin| - 1;
      var (w1, clean1) := RestoreInput(w, vin[k], undos[k]);
      var (w0, clean0) := RestoreAll(w1, vin[..k], undos[..k]);
      (w0, clean0 && clean1)
  }

  /** Restoring the first j inputs starts with the last of them. */
  lemma RestoreAllPrefix(w: UtxoSet, vin: seq<OutPoint>, undos: seq<TxInUndo>, j: nat)
    requires 0 < j <= |vin| == |undos|
    ensures var (w1, clean1) := RestoreInput(w, vin[j - 1], undos[j - 1]);
            var (w0, clean0) := RestoreAll(w1, vin[..j - 1], undos[..j - 1]);
            RestoreAll(w, vin[..j], undos[..j]) == (w0, clean0 && clean1)
  {
    assert vin[..j][..j - 1] == vin[..j - 1] && undos[..j][..j - 1] == undos[..j - 1];
  }

  lemma RestoreInputInverse(u: UtxoSet, out: OutPoint, w: UtxoSet, undo: TxInUndo)
    requires WellFormedSet(u) && Available(u, out)
    requires ViewOf(w, SpendInput(u, out)) && undo.Shows(InputUndo(u, out))
    ensures var (r, clean) := RestoreInput(w, out, undo); clean && ViewOf(r, u)
  {
    var c := Lookup(u, out.hash);
    var s := SpendInput(u, out);
    assert Lookup(w, out.hash).Shows(Lookup(s, out.hash));
    SpendRestored(c, out.n, Lookup(w, out.hash), undo);
    var r := RestoreInput(w, out, undo).0;
    forall t: Hash256 ensures Lookup(r, t).Shows(Lookup(u, t)) {
      if t != out.hash {
        assert Lookup(w, t).Shows(Lookup(s, t));
      }
    }
  }

  lemma {:induction false} RestoreAllInverse(u: UtxoSet, vin: seq<OutPoint>, w: UtxoSet, undos: seq<TxInUndo>)
    requires WellFormedSet(u) && HaveInputs(u, vin) && Distinct(vin)
    requires ViewOf(w, SpendAll(u, vin)) && UndosShow(undos, InputUndos(u, vin))
    ensures var (r, clean) := RestoreAll(w, vin, undos); clean && ViewOf(r, u)
  {
    if vin != [] {
      var k := |vin| - 1;
      var u1 := SpendAll(u, vin[..k]);
      SpendNeverFails(u, vin, k);
      SpendAllProperties(u, vin[..k]);
      assert undos[k].Shows(InputUndos(u, vin)[k]);
      RestoreInputInverse(u1, vin[k], w, undos[k]);
      var (w1, clean1) := RestoreInput(w, vin[k], undos[k]);
      assert InputUndos(u, vin)[..k] == InputUndos(u, vin[..k]);
      assert forall i :: 0 <= i < k ==> undos[..k][i].Shows(InputUndos(u, vin)[i]);
      RestoreAllInverse(u, vin[..k], w1, undos[..k]);
    }
  }

  // ----- whole transactions -----

  /** UpdateCoins. */
  function ApplyTx(u: UtxoSet, tx: Transaction, nHeight: int): UtxoSet {
    (if tx.IsCoinBase() then u else SpendAll(u, tx.vin))[tx.txid := FromTx(tx, nHeight)]
  }

  function ApplyTxs(u: UtxoSet, vtx: seq<Transaction>, nHeight: int): UtxoSet {
    if vtx == [] then u else ApplyTx(ApplyTxs(u, vtx[..|vtx| - 1], nHeight), vtx[|vtx| - 1], nHeight)
  }

  /** The undo data of a block: one entry for every transaction that is not a coinbase. */
  function BlockUndo(u: UtxoSet, vtx: seq<Transaction>, nHeight: int): seq<seq<TxInUndo>> {
    if vtx == [] then []
    else
      var k := |vtx| - 1;
      BlockUndo(u, vtx[..k], nHeight) +
      (if vtx[k].IsCoinBase() then [] else [InputUndos(ApplyTxs(u, vtx[..k], nHeight), vtx[k].vin)])
  }

  /** One transaction undone: its outputs compared and removed, then its inputs restored. */
  function RemoveOutputs(w: UtxoSet, tx: Transaction, nHeight: int): (UtxoSet, bool) {
    var outsBlock := FromTx(tx, nHeight);
    var seen := Lookup(w, tx.txid);
    var cleared := seen.(vout := Trimmed(Cleared(seen.vout)));
    var outs := if outsBlock.nVersion < 0 then cleared.(nVersion := outsBlock.nVersion) else cleared;
    (if tx.txid in w then w[tx.txid := EMPTY_COINS] else w, outs.Same(outsBlock))
  }

  function UndoTx(w: UtxoSet, tx: Transaction, undos: seq<TxInUndo>, nHeight: int): (UtxoSet, bool)
    requires |undos| == |tx.vin|
  {
    var (w1, clean1) := RemoveOutputs(w, tx, nHeight);
    var (w0, clean0) := RestoreAll(w1, tx.vin, undos);
    (w0, clean0 && clean1)
  }

  /** The outcome of undoing the transactions; a mismatch when the undo data does not fit them. */
  datatype Undone = Undone(utxo: UtxoSet, clean: bool) | UndoMismatch

  function AlsoClean(r: Undone, clean: bool): Undone {
    if r.Undone? then Undone(r.utxo, r.clean && clean) else UndoMismatch
  }

  /** Transactions are undone from the last one to the first, the coinbase without restoring inputs. */
  function UndoTxs(w: UtxoSet, vtx: seq<Transaction>, undos: seq<seq<TxInUndo>>, nHeight: int): Undone
    requires vtx == [] || |undos| + 1 == |vtx|
    decreases |vtx|
  {
    if vtx == [] then Undone(w, true)
    else
      var k := |vtx| - 1;
      if k == 0 then
        var (w1, clean1) := RemoveOutputs(w, vtx[k], nHeight);
        Undone(w1, clean1)
      else if |undos[k - 1]| != |vtx[k].vin| then UndoMismatch
      else
        var (w0, clean0) := UndoTx(w, vtx[k], undos[k - 1], nHeight);
        AlsoClean(UndoTxs(w0, vtx[..k], undos[..k - 1], nHeight), clean0)
  }

  // ----- the checks -----

  predicate OutputsInRange(vout: seq<TxOut>) {
    (forall i :: 0 <= i < |vout| ==> vout[i].nValue >= 0) && OutputSum(vout) < INT64_LIMIT
  }

  /** CheckTransaction, without the size limits, which belong to the block oracle. */
  predicate TransactionOk(tx: Transaction) {
    && tx.vin != [] && tx.vout != []
    && OutputsInRange(tx.vout)
    && Distinct(tx.vin)
    && (tx.IsCoinBase() || forall i :: 0 <= i < |tx.vin| ==> !tx.vin[i].IsNull())
  }

  function InputSum(u: UtxoSet, vin: seq<OutPoint>): int {
    if vin == [] then 0 else InputSum(u, vin[..|vin| - 1]) + InputOutput(u, vin[|vin| - 1]).nValue
  }

  function RequiredMaturityDepth(nHeight: int): int {
    if nHeight >= COINBASE_MATURITY_SWITCH then COINBASE_MATURITY_NEW else COINBASE_MATURITY
  }

  predicate Mature(c: Coins, nSpendHeight: int) {
    c.fCoinBase ==> nSpendHeight - c.nHeight >= RequiredMaturityDepth(c.nHeight)
  }

  /** CheckInputs without the scripts: what a transaction needs of the set it spends from. */
  predicate InputsOk(u: UtxoSet, tx: Transaction, nSpendHeight: int) {
    && HaveInputs(u, tx.vin)
    && (forall i :: 0 <= i < |tx.vin| ==> Mature(Lookup(u, tx.vin[i].hash), nSpendHeight))
    && (forall i :: 0 <= i < |tx.vin| ==> InputOutput(u, tx.vin[i]).nValue >= 0)
    && InputSum(u, tx.vin) < INT64_LIMIT
    && InputSum(u, tx.vin) >= OutputSum(tx.vout)
  }

  predicate TxsOk(u: UtxoSet, vtx: seq<Transaction>, nHeight: int) {
    vtx == [] ||
    var k := |vtx| - 1;
    && TxsOk(u, vtx[..k], nHeight)
    && (vtx[k].IsCoinBase() || InputsOk(ApplyTxs(u, vtx[..k], nHeight), vtx[k], nHeight))
  }

  function Fees(u: UtxoSet, vtx: seq<Transaction>, nHeight: int): int {
    if vtx == [] then 0
    else
      var k := |vtx| - 1;
      Fees(u, vtx[..k], nHeight) +
      if vtx[k].IsCoinBase() then 0
      else InputSum(ApplyTxs(u, vtx[..k], nHeight), vtx[k].vin) - OutputSum(vtx[k].vout)
  }

  /** checkOk: header, size, signature-operation and Merkle verdicts; scriptsOk: the script verdict. */
  datatype Block = Block(hash: Hash256, vtx: seq<Transaction>, checkOk: bool, scriptsOk: bool, subsidy: nat)

  predicate UniqueTxids(vtx: seq<Transaction>) {
    forall i, j :: 0 <= i < j < |vtx| ==> vtx[i].txid != vtx[j].txid
  }

  /** First transaction is a coinbase and no other is; every transaction is well formed. */
  predicate TxsWellFormed(vtx: seq<Transaction>) {
    forall i :: 0 <= i < |vtx| ==> TransactionOk(vtx[i]) && (vtx[i].IsCoinBase() <==> i == 0)
  }

  predicate BlockOk(block: Block) {
    block.checkOk && block.vtx != [] && TxsWellFormed(block.vtx) && UniqueTxids(block.vtx)
  }

  /** BIP 30: no transaction of the block overwrites one that still has unspent outputs. */
  predicate NoOverwrite(u: UtxoSet, vtx: seq<Transaction>) {
    forall i :: 0 <= i < |vtx| ==> Lookup(u, vtx[i].txid).IsPruned()
  }

  function BlockValue(subsidy: nat, fees: int): int {
    (subsidy + fees) % UINT64_COUNT
  }

  predicate ConnectOk(u: UtxoSet, block: Block, nHeight: int) {
    && BlockOk(block)
    && NoOverwrite(u, block.vtx)
    && TxsOk(u, block.vtx, nHeight)
    && OutputSum(block.vtx[0].vout) <= BlockValue(block.subsidy, Fees(u, block.vtx, nHeight))
    && block.scriptsOk
  }

  // ----- disconnecting is the inverse of connecting -----

  lemma PrefixWellFormed(vtx: seq<Transaction>, k: nat)
    requires TxsWellFormed(vtx) && UniqueTxids(vtx) && k <= |vtx|
    ensures TxsWellFormed(vtx[..k]) && UniqueTxids(vtx[..k])
  {
  }

  lemma ApplyTxProperties(u: UtxoSet, tx: Transaction, nHeight: int)
    requires WellFormedSet(u) && TransactionOk(tx) && nHeight > 0
    ensures WellFormedSet(ApplyTx(u, tx, nHeight))
    ensures forall t: Hash256 :: Lookup(u, t).IsPruned() && t != tx.txid ==>
              Lookup(ApplyTx(u, tx, nHeight), t).IsPruned()
  {
    SpendAllProperties(u, tx.vin);
    FromTxWellFormed(tx, nHeight);
  }

  predicate Creates(vtx: seq<Transaction>, t: Hash256) {
    vtx != [] && (vtx[|vtx| - 1].txid == t || Creates(vtx[..|vtx| - 1], t))
  }

  lemma {:induction false} CreatesIndex(vtx: seq<Transaction>, t: Hash256)
    ensures Creates(vtx, t) <==> exists i :: 0 <= i < |vtx| && vtx[i].txid == t
  {
    if vtx != [] {
      var k := |vtx| - 1;
      CreatesIndex(vtx[..k], t);
      assert forall i :: 0 <= i < k ==> vtx[..k][i] == vtx[i];
    }
  }

  /** Applying transactions keeps the set well formed and revives only the transactions applied. */
  lemma {:induction false} ApplyTxsProperties(u: UtxoSet, vtx: seq<Transaction>, nHeight: int)
    requires WellFormedSet(u) && TxsWellFormed(vtx) && nHeight > 0
    ensures WellFormedSet(ApplyTxs(u, vtx, nHeight))
    ensures forall t: Hash256 :: Lookup(u, t).IsPruned() && !Creates(vtx, t)
              ==> Lookup(ApplyTxs(u, vtx, nHeight), t).IsPruned()
  {
    if vtx != [] {
      var k := |vtx| - 1;
      ApplyTxsProperties(u, vtx[..k], nHeight);
      assert TransactionOk(vtx[k]);
      ApplyTxProperties(ApplyTxs(u, vtx[..k], nHeight), vtx[k], nHeight);
    }
  }

  lemma {:induction false} BlockUndoLength(u: UtxoSet, vtx: seq<Transaction>, nHeight: int)
    requires TxsWellFormed(vtx)
    ensures |BlockUndo(u, vtx, nHeight)| == if vtx == [] then 0 else |vtx| - 1
  {
    if vtx != [] {
      var k := |vtx| - 1;
      BlockUndoLength(u, vtx[..k], nHeight);
      assert vtx[k].IsCoinBase() <==> k == 0;
    }
  }

  /**
   The outputs just added match the block, and removing them gives the set
   before they were added. A negative version may have changed on disk; the
   comparison then takes the version of the block.
   */
  lemma RemoveOutputsInverse(u: UtxoSet, tx: Transaction, nHeight: int, w: UtxoSet)
    requires Lookup(u, tx.txid).IsPruned()
    requires ViewOf(w, u[tx.txid := FromTx(tx, nHeight)])
    ensures var (r, clean) := RemoveOutputs(w, tx, nHeight); clean && ViewOf(r, u)
  {
    var s := u[tx.txid := FromTx(tx, nHeight)];
    assert Lookup(w, tx.txid).Shows(Lookup(s, tx.txid));
    ClearIdempotent(tx);
    var seen := Lookup(w, tx.txid);
    if seen.IsPruned() {
      assert forall i :: 0 <= i < |Cleared(seen.vout)| ==> Cleared(seen.vout)[i].IsNull();
    }
    var r := RemoveOutputs(w, tx, nHeight).0;
    forall t: Hash256 ensures Lookup(r, t).Shows(Lookup(u, t)) {
      if t != tx.txid {
        assert Lookup(w, t).Shows(Lookup(s, t));
      }
    }
  }

  /** The outputs of a block, compared without that correction of the version, would not match. */
  lemma UncorrectedVersionDiffers(tx: Transaction, nHeight: int)
    requires tx.nVersion < 0 && !FromTx(tx, nHeight).IsPruned()
    ensures var seen := FromTx(tx, nHeight).(nVersion := Kept(tx.nVersion));
            && seen.Shows(FromTx(tx, nHeight)) && !seen.Same(FromTx(tx, nHeight))
            && RemoveOutputs(map[tx.txid := seen], tx, nHeight).1
  {
    ClearIdempotent(tx);
  }

  /** What connecting did before the last transaction, seen from the whole list. */
  lemma LastTransaction(u: UtxoSet, vtx: seq<Transaction>, nHeight: int)
    requires WellFormedSet(u) && nHeight > 0 && vtx != []
    requires TxsWellFormed(vtx) && UniqueTxids(vtx) && NoOverwrite(u, vtx) && TxsOk(u, vtx, nHeight)
    ensures var k := |vtx| - 1;
            var u1 := ApplyTxs(u, vtx[..k], nHeight);
            && WellFormedSet(u1) && Lookup(u1, vtx[k].txid).IsPruned()
            && TxsWellFormed(vtx[..k]) && UniqueTxids(vtx[..k])
            && NoOverwrite(u, vtx[..k]) && TxsOk(u, vtx[..k], nHeight)
            && TransactionOk(vtx[k])
            && (k > 0 ==> InputsOk(u1, vtx[k], nHeight))
  {
    var k := |vtx| - 1;
    PrefixWellFormed(vtx, k);
    ApplyTxsProperties(u, vtx[..k], nHeight);
    assert Lookup(u, vtx[k].txid).IsPruned();
    CreatesIndex(vtx[..k], vtx[k].txid);
    assert vtx[k].IsCoinBase() <==> k == 0;
  }

  lemma UndoOfLast(u: UtxoSet, vtx: seq<Transaction>, nHeight: int)
    requires TxsWellFormed(vtx) && |vtx| > 1
    ensures var k := |vtx| - 1;
            var undos := BlockUndo(u, vtx, nHeight);
            && |undos| == k
            && undos[k - 1] == InputUndos(ApplyTxs(u, vtx[..k], nHeight), vtx[k].vin)
            && undos[..k - 1] == BlockUndo(u, vtx[..k], nHeight)
  {
    var k := |vtx| - 1;
    BlockUndoLength(u, vtx[..k], nHeight);
    assert vtx[k].IsCoinBase() <==> k == 0;
  }

  lemma UndoTxInverse(u: UtxoSet, tx: Transaction, nHeight: int, w: UtxoSet, undos: seq<TxInUndo>)
    requires WellFormedSet(u) && Lookup(u, tx.txid).IsPruned()
    requires !tx.IsCoinBase() && HaveInputs(u, tx.vin) && Distinct(tx.vin)
    requires ViewOf(w, ApplyTx(u, tx, nHeight)) && UndosShow(undos, InputUndos(u, tx.vin))
    ensures var (r, clean) := UndoTx(w, tx, undos, nHeight); clean && ViewOf(r, u)
  {
    var s := SpendAll(u, tx.vin);
    SpendAllProperties(u, tx.vin);
    RemoveOutputsInverse(s, tx, nHeight, w);
    RestoreAllInverse(u, tx.vin, RemoveOutputs(w, tx, nHeight).0, undos);
  }

  /** The transactions of a block that ConnectBlock accepts on this set. */
  ghost predicate Connectable(u: UtxoSet, vtx: seq<Transaction>, nHeight: int) {
    && WellFormedSet(u) && nHeight > 0
    && TxsWellFormed(vtx) && UniqueTxids(vtx) && NoOverwrite(u, vtx) && TxsOk(u, vtx, nHeight)
  }

  lemma UndoTxsUnfold(w: UtxoSet, vtx: seq<Transaction>, undos: seq<seq<TxInUndo>>, nHeight: int)
    requires |vtx| > 1 && |undos| + 1 == |vtx| && |undos[|vtx| - 2]| == |vtx[|vtx| - 1].vin|
    ensures var k := |vtx| - 1;
            var (w0, clean0) := UndoTx(w, vtx[k], undos[k - 1], nHeight);
            UndoTxs(w, vtx, undos, nHeight) == AlsoClean(UndoTxs(w0, vtx[..k], undos[..k - 1], nHeight), clean0)
  {
  }

  /** The same for the first i transactions of a block. */
  lemma UndoTxsPrefix(w: UtxoSet, vtx: seq<Transaction>, undos: seq<seq<TxInUndo>>, nHeight: int, i: nat)
    requires 1 < i <= |vtx| && |undos| + 1 == |vtx|
    ensures UndoTxs(w, vtx[..i], undos[..i - 1], nHeight) ==
            if |undos[i - 2]| != |vtx[i - 1].vin| then UndoMismatch
            else
              var (w0, clean0) := UndoTx(w, vtx[i - 1], undos[i - 2], nHeight);
              AlsoClean(UndoTxs(w0, vtx[..i - 1], undos[..i - 2], nHeight), clean0)
  {
    assert vtx[..i][..i - 1] == vtx[..i - 1] && undos[..i - 1][..i - 2] == undos[..i - 2];
  }

  /** Undoing the last transaction leads back to the set before it, with the rest of the undo data. */
  lemma UndoLastInverse(u: UtxoSet, vtx: seq<Transaction>, nHeight: int, w: UtxoSet, undos: seq<seq<TxInUndo>>)
    returns (w0: UtxoSet)
    requires Connectable(u, vtx, nHeight) && |vtx| > 1
    requires ViewOf(w, ApplyTxs(u, vtx, nHeight)) && BlockUndoShows(undos, BlockUndo(u, vtx, nHeight))
    ensures var k := |vtx| - 1;
            && Connectable(u, vtx[..k], nHeight)
            && ViewOf(w0, ApplyTxs(u, vtx[..k], nHeight))
            && |undos| == k && BlockUndoShows(undos[..k - 1], BlockUndo(u, vtx[..k], nHeight))
            && UndoTxs(w, vtx, undos, nHeight) == AlsoClean(UndoTxs(w0, vtx[..k], undos[..k - 1], nHeight), true)
  {
    var k := |vtx| - 1;
    var u1 := ApplyTxs(u, vtx[..k], nHeight);
    LastTransaction(u, vtx, nHeight);
    UndoOfLast(u, vtx, nHeight);
    assert !vtx[k].IsCoinBase();
    assert UndosShow(undos[k - 1], InputUndos(u1, vtx[k].vin));
    UndoTxInverse(u1, vtx[k], nHeight, w, undos[k - 1]);
    w0 := UndoTx(w, vtx[k], undos[k - 1], nHeight).0;
    UndoTxsUnfold(w, vtx, undos, nHeight);
    forall i | 0 <= i < k - 1 ensures UndosShow(undos[..k - 1][i], BlockUndo(u, vtx[..k], nHeight)[i]) {
      assert UndosShow(undos[i], BlockUndo(u, vtx, nHeight)[i]);
      assert BlockUndo(u, vtx, nHeight)[..k - 1][i] == BlockUndo(u, vtx, nHeight)[i];
    }
  }

  /**
   DisconnectBlock after ConnectBlock, on any view of the connected set and with
   any form of its undo data, reports clean and restores the set before the
   block. Views and undo data may have lost fully spent records and negative
   versions.
   */
  lemma {:induction false} DisconnectInverse(u: UtxoSet, vtx: seq<Transaction>, nHeight: int, w: UtxoSet,
                                             undos: seq<seq<TxInUndo>>)
    requires Connectable(u, vtx, nHeight) && vtx != []
    requires ViewOf(w, ApplyTxs(u, vtx, nHeight)) && BlockUndoShows(undos, BlockUndo(u, vtx, nHeight))
    ensures |undos| == |vtx| - 1
    ensures var r := UndoTxs(w, vtx, undos, nHeight);
            r.Undone? && r.clean && ViewOf(r.utxo, u)
    decreases |vtx|
  {
    BlockUndoLength(u, vtx, nHeight);
    if |vtx| == 1 {
      LastTransaction(u, vtx, nHeight);
      assert vtx[0].IsCoinBase() && ApplyTxs(u, vtx[..0], nHeight) == u;
      RemoveOutputsInverse(u, vtx[0], nHeight, w);
    } else {
      var w0 := UndoLastInverse(u, vtx, nHeight, w, undos);
      DisconnectInverse(u, vtx[..|vtx| - 1], nHeight, w0, undos[..|vtx| - 2]);
    }
  }
}
