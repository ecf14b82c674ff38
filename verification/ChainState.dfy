/**
 The coins view of the active chain (main.cpp: ConnectTip, DisconnectTip,
 WriteChainState), over a store and undo files that hold the stored forms of
 module DiskForm.  As long as every spendable output of the blocks connected
 has a storable amount, or the subsidies stay below a ninth of 2^64, the view
 shows the replay of the active chain in every state reached by any run;
 versions that are negative may have changed.

 A block index entry is a value that holds its own ancestry, so two entries
 are the same block exactly when they are equal.
 */
module ChainState {
  import opened Coins
  import opened Utxo
  import opened Amounts
  import opened DiskForm
  import opened UndoFiles
  import opened UndoLoss
  import opened CoinsViews
  import opened Validation
  import opened Supply
  import opened VarInts
  import opened Options

  datatype BlockIndex = Genesis(genesisHash: Hash256) | Child(prev: BlockIndex, block: Block) {
    function Hash(): Hash256 {
      if Genesis? then genesisHash else block.hash
    }

    function Height(): nat {
      if Genesis? then 0 else prev.Height() + 1
    }
  }

  /** The unspent outputs after the chain; the genesis coinbase is never added. */
  function Replay(idx: BlockIndex): UtxoSet {
    if idx.Genesis? then map[] else ApplyTxs(Replay(idx.prev), idx.block.vtx, idx.Height())
  }

  predicate HashesOk(idx: BlockIndex) {
    idx.Hash() != 0 && (idx.Child? ==> HashesOk(idx.prev))
  }

  /** Every block of the chain is accepted where it stands. */
  predicate ChainOk(idx: BlockIndex) {
    && idx.Hash() != 0
    && (idx.Child? ==> ChainOk(idx.prev) && ConnectOk(Replay(idx.prev), idx.block, idx.Height()))
  }

  function UndoOf(idx: BlockIndex): seq<seq<TxInUndo>>
    requires idx.Child?
  {
    BlockUndo(Replay(idx.prev), idx.block.vtx, idx.Height())
  }

  lemma {:induction false} ReplayWellFormed(idx: BlockIndex)
    requires ChainOk(idx)
    ensures WellFormedSet(Replay(idx))
  {
    if idx.Child? {
      ReplayWellFormed(idx.prev);
      ApplyTxsProperties(Replay(idx.prev), idx.block.vtx, idx.Height());
    }
  }

  function Subsidies(idx: BlockIndex): nat {
    if idx.Genesis? then 0 else Subsidies(idx.prev) + idx.block.subsidy
  }

  /** No chain of accepted blocks creates more than the sum of its subsidies. */
  lemma {:induction false} ChainSupply(idx: BlockIndex)
    requires ChainOk(idx)
    ensures Total(Replay(idx)) <= Subsidies(idx)
  {
    if idx.Child? {
      ChainSupply(idx.prev);
      ReplayWellFormed(idx.prev);
      SupplyBound(Replay(idx.prev), idx.block, idx.Height());
    }
  }

  // ----- nothing can tell a view from what it shows -----

  lemma ViewAvailable(w: UtxoSet, u: UtxoSet, out: OutPoint)
    requires ViewOf(w, u)
    ensures Available(w, out) <==> Available(u, out)
    ensures Available(u, out) ==> Lookup(w, out.hash).fCoinBase == Lookup(u, out.hash).fCoinBase
    ensures Available(u, out) ==> Lookup(w, out.hash).nHeight == Lookup(u, out.hash).nHeight
    ensures InputOutput(w, out) == InputOutput(u, out) && InputUndo(w, out).Shows(InputUndo(u, out))
  {
    SpentShows(Lookup(w, out.hash), Lookup(u, out.hash), out.n);
  }

  lemma ViewSpendInput(w: UtxoSet, u: UtxoSet, out: OutPoint)
    requires ViewOf(w, u)
    ensures ViewOf(SpendInput(w, out), SpendInput(u, out))
  {
    SpentShows(Lookup(w, out.hash), Lookup(u, out.hash), out.n);
    forall t: Hash256 ensures Lookup(SpendInput(w, out), t).Shows(Lookup(SpendInput(u, out), t)) {
      assert Lookup(w, t).Shows(Lookup(u, t));
    }
  }

  lemma {:induction false} ViewSpendAll(w: UtxoSet, u: UtxoSet, vin: seq<OutPoint>)
    requires ViewOf(w, u)
    ensures ViewOf(SpendAll(w, vin), SpendAll(u, vin)) && UndosShow(InputUndos(w, vin), InputUndos(u, vin))
    ensures InputSum(w, vin) == InputSum(u, vin)
  {
    if vin != [] {
      var k := |vin| - 1;
      ViewSpendAll(w, u, vin[..k]);
      ViewSpendInput(SpendAll(w, vin[..k]), SpendAll(u, vin[..k]), vin[k]);
      ViewAvailable(SpendAll(w, vin[..k]), SpendAll(u, vin[..k]), vin[k]);
      ViewAvailable(w, u, vin[k]);
    }
  }

  lemma ViewApplyTx(w: UtxoSet, u: UtxoSet, tx: Transaction, nHeight: int)
    requires ViewOf(w, u)
    ensures ViewOf(ApplyTx(w, tx, nHeight), ApplyTx(u, tx, nHeight))
  {
    ViewSpendAll(w, u, tx.vin);
    var w1 := if tx.IsCoinBase() then w else SpendAll(w, tx.vin);
    var u1 := if tx.IsCoinBase() then u else SpendAll(u, tx.vin);
    forall t: Hash256 ensures Lookup(ApplyTx(w, tx, nHeight), t).Shows(Lookup(ApplyTx(u, tx, nHeight), t)) {
      assert Lookup(w1, t).Shows(Lookup(u1, t));
    }
  }

  lemma ViewInputsOk(w: UtxoSet, u: UtxoSet, tx: Transaction, nHeight: int)
    requires ViewOf(w, u)
    ensures InputsOk(w, tx, nHeight) <==> InputsOk(u, tx, nHeight)
  {
    ViewSpendAll(w, u, tx.vin);
    forall i | 0 <= i < |tx.vin|
      ensures Available(w, tx.vin[i]) <==> Available(u, tx.vin[i])
      ensures InputOutput(w, tx.vin[i]) == InputOutput(u, tx.vin[i])
      ensures Available(u, tx.vin[i]) ==>
                (Mature(Lookup(w, tx.vin[i].hash), nHeight) <==> Mature(Lookup(u, tx.vin[i].hash), nHeight))
    {
      ViewAvailable(w, u, tx.vin[i]);
    }
  }

  lemma {:induction false} ViewTxs(w: UtxoSet, u: UtxoSet, vtx: seq<Transaction>, nHeight: int)
    requires ViewOf(w, u)
    ensures ViewOf(ApplyTxs(w, vtx, nHeight), ApplyTxs(u, vtx, nHeight))
    ensures TxsOk(w, vtx, nHeight) <==> TxsOk(u, vtx, nHeight)
    ensures Fees(w, vtx, nHeight) == Fees(u, vtx, nHeight)
    ensures BlockUndoShows(BlockUndo(w, vtx, nHeight), BlockUndo(u, vtx, nHeight))
  {
    if vtx != [] {
      var k := |vtx| - 1;
      var w1, u1 := ApplyTxs(w, vtx[..k], nHeight), ApplyTxs(u, vtx[..k], nHeight);
      ViewTxs(w, u, vtx[..k], nHeight);
      ViewApplyTx(w1, u1, vtx[k], nHeight);
      ViewInputsOk(w1, u1, vtx[k], nHeight);
      ViewSpendAll(w1, u1, vtx[k].vin);
    }
  }

  /** A block connects on a view exactly when it connects on what the view shows. */
  lemma ViewConnectOk(w: UtxoSet, u: UtxoSet, block: Block, nHeight: int)
    requires ViewOf(w, u)
    ensures ConnectOk(w, block, nHeight) <==> ConnectOk(u, block, nHeight)
  {
    ViewTxs(w, u, block.vtx, nHeight);
    forall i | 0 <= i < |block.vtx|
      ensures Lookup(w, block.vtx[i].txid).IsPruned() <==> Lookup(u, block.vtx[i].txid).IsPruned()
    {
      assert Lookup(w, block.vtx[i].txid).Shows(Lookup(u, block.vtx[i].txid));
    }
  }

  /** A block connects on a view exactly when it connects on the replay, with the same effect and undo data. */
  lemma ConnectOnView(view: UtxoSet, idx: BlockIndex, block: Block)
    requires ViewOf(view, Replay(idx))
    ensures var next := Child(idx, block);
            && (ConnectOk(view, block, next.Height()) <==> ConnectOk(Replay(idx), block, next.Height()))
            && ViewOf(ApplyTxs(view, block.vtx, next.Height()), Replay(next))
            && BlockUndoShows(BlockUndo(view, block.vtx, next.Height()), UndoOf(next))
  {
    var h := Child(idx, block).Height();
    ViewTxs(view, Replay(idx), block.vtx, h);
    ViewConnectOk(view, Replay(idx), block, h);
  }

  /** Undo data of the block takes a view of the chain cleanly back to a view of the parent chain. */
  lemma DisconnectOnView(view: UtxoSet, idx: BlockIndex, undos: seq<seq<TxInUndo>>)
    requires idx.Child? && ChainOk(idx) && ViewOf(view, Replay(idx)) && BlockUndoShows(undos, UndoOf(idx))
    ensures idx.block.vtx != [] && |undos| + 1 == |idx.block.vtx|
    ensures var r := UndoTxs(view, idx.block.vtx, undos, idx.Height());
            r.Undone? && r.clean && ViewOf(r.utxo, Replay(idx.prev))
  {
    ReplayWellFormed(idx.prev);
    assert idx.Height() > 0;
    DisconnectInverse(Replay(idx.prev), idx.block.vtx, idx.Height(), view, undos);
  }

  // ----- blocks whose outputs last on disk -----

  predicate KeepableTx(tx: Transaction) {
    forall j :: 0 <= j < |tx.vout| ==> IsUnspendable(tx.vout[j].script) || Storable(tx.vout[j])
  }

  /** What a caller can check of a block: every output that can be spent has a storable amount. */
  predicate Keepable(block: Block) {
    forall i :: 0 <= i < |block.vtx| ==> KeepableTx(block.vtx[i])
  }

  predicate ChainKeepable(idx: BlockIndex) {
    idx.Child? ==> ChainKeepable(idx.prev) && Keepable(idx.block)
  }

  ghost predicate StorableSet(u: UtxoSet) {
    forall t :: t in u ==> AllStorable(u[t].vout)
  }

  lemma SpentStorable(c: Coins, n: nat)
    requires c.IsAvailable(n) && AllStorable(c.vout)
    ensures AllStorable(Spent(c, n).vout)
  {
    var s := Spent(c, n).vout;
    forall i | 0 <= i < |s| && !s[i].IsNull() ensures Storable(s[i]) {
      SpentAt(c, n, i);
    }
  }

  lemma {:induction false} SpendAllStorable(u: UtxoSet, vin: seq<OutPoint>)
    requires StorableSet(u) && WellFormedSet(u) && HaveInputs(u, vin) && Distinct(vin)
    ensures StorableSet(SpendAll(u, vin))
    ensures forall i :: 0 <= i < |vin| ==> LastingUndo(InputUndos(u, vin)[i])
  {
    if vin != [] {
      var k := |vin| - 1;
      var u1, out := SpendAll(u, vin[..k]), vin[k];
      SpendAllStorable(u, vin[..k]);
      SpendNeverFails(u, vin, k);
      SpendAllProperties(u, vin[..k]);
      SpentStorable(Lookup(u1, out.hash), out.n);
      assert Lookup(u1, out.hash).nHeight > 0;
    }
  }

  lemma FromTxStorable(tx: Transaction, nHeight: int)
    requires KeepableTx(tx)
    ensures AllStorable(FromTx(tx, nHeight).vout)
  {
    var vout := FromTx(tx, nHeight).vout;
    assert forall i :: 0 <= i < |vout| ==> vout[i] == Cleared(tx.vout)[i];
  }

  /** Connecting storable outputs on storable outputs gives storable outputs, and undo data that lasts. */
  lemma {:induction false} ApplyTxsStorable(u: UtxoSet, vtx: seq<Transaction>, nHeight: int)
    requires Connectable(u, vtx, nHeight) && StorableSet(u) && forall i :: 0 <= i < |vtx| ==> KeepableTx(vtx[i])
    ensures StorableSet(ApplyTxs(u, vtx, nHeight)) && AllLasting(BlockUndo(u, vtx, nHeight))
    decreases |vtx|
  {
    if vtx != [] {
      var k := |vtx| - 1;
      LastTransaction(u, vtx, nHeight);
      ApplyTxsStorable(u, vtx[..k], nHeight);
      assert KeepableTx(vtx[k]);
      ApplyTxStorable(ApplyTxs(u, vtx[..k], nHeight), vtx[k], nHeight);
    }
  }

  lemma {:induction false} ApplyTxStorable(u: UtxoSet, tx: Transaction, nHeight: int)
    requires StorableSet(u) && WellFormedSet(u) && TransactionOk(tx)
    requires tx.IsCoinBase() || HaveInputs(u, tx.vin)
    requires KeepableTx(tx)
    ensures StorableSet(ApplyTx(u, tx, nHeight))
    ensures !tx.IsCoinBase() ==> forall i :: 0 <= i < |tx.vin| ==> LastingUndo(InputUndos(u, tx.vin)[i])
  {
    FromTxStorable(tx, nHeight);
    if !tx.IsCoinBase() {
      SpendAllStorable(u, tx.vin);
    }
  }

  lemma {:induction false} ReplayStorable(idx: BlockIndex)
    requires ChainOk(idx) && ChainKeepable(idx)
    ensures StorableSet(Replay(idx))
    ensures idx.Child? ==> AllLasting(UndoOf(idx))
  {
    if idx.Child? {
      ReplayStorable(idx.prev);
      ReplayWellFormed(idx.prev);
      ApplyTxsStorable(Replay(idx.prev), idx.block.vtx, idx.Height());
    }
  }

  /** A record that shows one of the chain lasts exactly if its amounts are storable. */
  lemma LastingRecord(c: Coins, r: Coins)
    requires c.Shows(r) && !c.IsPruned() && r.WellFormed() && r.nHeight > 0
    ensures DiskCopy(c).Shows(r) <==> AllStorable(c.vout)
  {
    DiskCopyShows(c);
    if DiskCopy(c).Shows(r) {
      assert DiskCopy(c).Shows(c);
    }
  }

  /** Writing a cache over a view of a chain keeps showing the chain exactly if the amounts in it are storable. */
  lemma StoredView(below: UtxoSet, cache: UtxoSet, chain: UtxoSet)
    requires ViewOf(below + cache, chain) && WellFormedSet(chain)
    ensures ViewOf(Stored(below, cache), chain) <==> forall t :: t in cache ==> AllStorable(cache[t].vout)
  {
    var r := Stored(below, cache);
    forall t: Hash256
      ensures Lookup(r, t).Shows(Lookup(chain, t)) <==> (t in cache ==> AllStorable(cache[t].vout))
    {
      assert Lookup(below + cache, t).Shows(Lookup(chain, t));
      if t in cache && !cache[t].IsPruned() {
        LastingRecord(cache[t], Lookup(chain, t));
      }
    }
  }

  /** What a view holds of a chain of keepable blocks is storable. */
  lemma ViewStorable(w: UtxoSet, u: UtxoSet)
    requires ViewOf(w, u) && StorableSet(u)
    ensures StorableSet(w)
  {
    forall t | t in w ensures AllStorable(w[t].vout) {
      assert Lookup(w, t).Shows(Lookup(u, t));
    }
  }

  // ----- chains that have paid little -----

  lemma {:induction false} ReplayValued(idx: BlockIndex)
    requires ChainOk(idx)
    ensures ValuedSet(Replay(idx))
  {
    if idx.Child? {
      ReplayValued(idx.prev);
      ApplyTxsValued(Replay(idx.prev), idx.block.vtx, idx.Height());
    }
  }

  lemma SmallIsStorable(o: TxOut)
    requires o.nValue >= 0 && 9 * o.nValue < WORD64
    ensures Storable(o)
  {
    CompressFits(o.nValue);
    assert o.nValue % WORD64 == o.nValue;
  }

  /** A block on a chain whose subsidies are below a ninth of 2^64 has only storable outputs. */
  lemma {:induction false} SmallBlockKeepable(idx: BlockIndex)
    requires idx.Child? && ChainOk(idx) && 9 * Subsidies(idx) < WORD64
    ensures Keepable(idx.block)
  {
    var u, vtx := Replay(idx.prev), idx.block.vtx;
    ReplayWellFormed(idx.prev);
    ReplayValued(idx.prev);
    ChainSupply(idx.prev);
    forall i, j | 0 <= i < |vtx| && 0 <= j < |vtx[i].vout| ensures Storable(vtx[i].vout[j]) {
      OutputsBounded(u, idx.block, idx.Height(), i);
      assert TransactionOk(vtx[i]);
      OutputWithinSum(vtx[i].vout, j);
      SmallIsStorable(vtx[i].vout[j]);
    }
  }

  /** As long as a chain has paid less than a ninth of 2^64, nothing of it is lost on disk but negative versions. */
  lemma {:induction false} SmallChainKeepable(idx: BlockIndex)
    requires ChainOk(idx) && 9 * Subsidies(idx) < WORD64
    ensures ChainKeepable(idx)
  {
    if idx.Child? {
      SmallChainKeepable(idx.prev);
      SmallBlockKeepable(idx);
    }
  }

  /** What a caller can check before a block is connected, so that nothing it creates is lost on disk. */
  predicate Fits(idx: BlockIndex, block: Block) {
    Keepable(block) || 9 * (Subsidies(idx) + block.subsidy) < WORD64
  }

  // ----- the node -----

  /** The undo file of a block was written from undo data that shows that of the block. */
  ghost predicate WrittenFor(file: UndoFile, idx: BlockIndex, hasher: HashFunction)
    requires idx.Child?
  {
    BlockUndoShows(file.written, UndoOf(idx)) && file == WriteToDisk(file.written, idx.prev.Hash(), hasher)
  }

  /** Every block of the chain has its undo data on disk. */
  predicate UndoKnown(idx: BlockIndex, undo: map<BlockIndex, UndoFile>) {
    idx.Child? ==> idx in undo && UndoKnown(idx.prev, undo)
  }

  lemma {:induction false} UndoKnownMore(idx: BlockIndex, undo: map<BlockIndex, UndoFile>, k: BlockIndex, v: UndoFile)
    requires UndoKnown(idx, undo)
    ensures UndoKnown(idx, undo[k := v])
  {
    if idx.Child? {
      UndoKnownMore(idx.prev, undo, k, v);
    }
  }

  ghost predicate UndoWritten(idx: BlockIndex, undo: map<BlockIndex, UndoFile>, hasher: HashFunction) {
    UndoKnown(idx, undo) && forall i :: i in undo ==> i.Child? && WrittenFor(undo[i], i, hasher)
  }

  /** The versions of all transactions of the chain are non-negative, as the relay policy asks but no rule does. */
  predicate VersionsOk(idx: BlockIndex) {
    idx.Child? ==> VersionsOk(idx.prev) && forall i :: 0 <= i < |idx.block.vtx| ==> idx.block.vtx[i].nVersion >= 0
  }

  ghost predicate VersionedSet(u: UtxoSet) {
    forall t :: t in u ==> u[t].nVersion >= 0
  }

  lemma {:induction false} SpendAllVersions(u: UtxoSet, vin: seq<OutPoint>)
    requires VersionedSet(u)
    ensures VersionedSet(SpendAll(u, vin))
  {
    if vin != [] {
      SpendAllVersions(u, vin[..|vin| - 1]);
    }
  }

  lemma {:induction false} ApplyTxsVersions(u: UtxoSet, vtx: seq<Transaction>, nHeight: int)
    requires VersionedSet(u) && forall i :: 0 <= i < |vtx| ==> vtx[i].nVersion >= 0
    ensures VersionedSet(ApplyTxs(u, vtx, nHeight))
  {
    if vtx != [] {
      var k := |vtx| - 1;
      ApplyTxsVersions(u, vtx[..k], nHeight);
      SpendAllVersions(ApplyTxs(u, vtx[..k], nHeight), vtx[k].vin);
    }
  }

  lemma {:induction false} ReplayVersions(idx: BlockIndex)
    requires VersionsOk(idx)
    ensures VersionedSet(Replay(idx))
  {
    if idx.Child? {
      ReplayVersions(idx.prev);
      ApplyTxsVersions(Replay(idx.prev), idx.block.vtx, idx.Height());
    }
  }

  /** The view shows the replay of a chain that the rules accept, and the undo files are those of their blocks. */
  ghost predicate ShowsChain(view: UtxoSet, idx: BlockIndex, undo: map<BlockIndex, UndoFile>, hasher: HashFunction) {
    ChainOk(idx) && ViewOf(view, Replay(idx)) && UndoWritten(idx, undo, hasher)
  }

  /** What connecting a block on a view of a chain achieves. */
  lemma ConnectEffect(view: UtxoSet, idx: BlockIndex, block: Block, ok: bool)
    requires block.hash != 0 && ok == ConnectOk(view, block, Child(idx, block).Height())
    ensures ChainOk(idx) && ViewOf(view, Replay(idx)) ==>
              var next := Child(idx, block);
              && (ok <==> ChainOk(next))
              && ViewOf(ApplyTxs(view, block.vtx, next.Height()), Replay(next))
              && BlockUndoShows(BlockUndo(view, block.vtx, next.Height()), UndoOf(next))
              && (ok && ChainKeepable(idx) && Fits(idx, block) ==> ChainKeepable(next))
  {
    if ChainOk(idx) && ViewOf(view, Replay(idx)) {
      var next := Child(idx, block);
      ConnectOnView(view, idx, block);
      if ChainOk(next) && Fits(idx, block) && !Keepable(block) {
        SmallBlockKeepable(next);
      }
    }
  }

  /** What disconnecting a block with the undo data read makes of the view; None when it is refused. */
  function Disconnected(view: UtxoSet, idx: BlockIndex, data: Option<seq<seq<TxInUndo>>>): Option<UtxoSet>
    requires idx.Child?
  {
    if data.None? || |data.value| + 1 != |idx.block.vtx| then None
    else
      var r := UndoTxs(view, idx.block.vtx, data.value, idx.Height());
      if r.Undone? && r.clean then Some(r.utxo) else None
  }

  lemma DisconnectedAs(view: UtxoSet, idx: BlockIndex, undos: seq<seq<TxInUndo>>)
    requires idx.Child? && |undos| + 1 == |idx.block.vtx|
    ensures var d, r := Disconnected(view, idx, Some(undos)), UndoTxs(view, idx.block.vtx, undos, idx.Height());
            d == if r.Undone? && r.clean then Some(r.utxo) else None
  {
  }

  /** With undo data as it is read, a view of the chain becomes one of the parent chain exactly if it is storable. */
  lemma DisconnectAsRead(view: UtxoSet, idx: BlockIndex, undos: seq<seq<TxInUndo>>)
    requires idx.Child? && ChainOk(idx) && ViewOf(view, Replay(idx)) && BlockUndoShows(undos, UndoOf(idx))
    ensures var d := Disconnected(view, idx, Some(BlockAsRead(undos)));
            d.Some? && ViewOf(d.value, Replay(idx.prev)) <==> AmountsStorable(UndoOf(idx))
  {
    var u, vtx, nHeight := Replay(idx.prev), idx.block.vtx, idx.Height();
    ReplayWellFormed(idx.prev);
    assert Connectable(u, vtx, nHeight);
    DisconnectExactly(u, vtx, nHeight, view, undos);
    DisconnectedAs(view, idx, BlockAsRead(undos));
  }

  /** Storable undo data passes the checksum. */
  lemma StorableUndoRead(idx: BlockIndex, undos: seq<seq<TxInUndo>>, hasher: HashFunction)
    requires idx.Child? && ChainOk(idx) && BlockUndoShows(undos, UndoOf(idx)) && AmountsStorable(UndoOf(idx))
    ensures ReadFromDisk(WriteToDisk(undos, idx.prev.Hash(), hasher), idx.prev.Hash(), hasher).Some?
  {
    ReplayWellFormed(idx.prev);
    assert Connectable(Replay(idx.prev), idx.block.vtx, idx.Height());
    BlockUndoForm(Replay(idx.prev), idx.block.vtx, idx.Height());
    ReadShows(undos, UndoOf(idx));
    UndoFileRead(undos, UndoOf(idx), idx.prev.Hash(), hasher);
  }

  /** What is read of the undo data written for a block, unless its checksum fails, is its stored form. */
  lemma ReadIsStored(idx: BlockIndex, file: UndoFile, hasher: HashFunction, data: Option<seq<seq<TxInUndo>>>)
    requires idx.Child? && ChainOk(idx) && WrittenFor(file, idx, hasher)
    requires data == ReadFromDisk(file, idx.prev.Hash(), hasher)
    ensures data.Some? ==> data.value == BlockAsRead(file.written)
    ensures AmountsStorable(UndoOf(idx)) ==> data.Some?
  {
    if AmountsStorable(UndoOf(idx)) {
      StorableUndoRead(idx, file.written, hasher);
    }
  }

  /** The tip can be disconnected, and the view then shows the parent chain, exactly if its undo data is storable. */
  lemma DisconnectOnDisk(view: UtxoSet, idx: BlockIndex, file: UndoFile, hasher: HashFunction,
                         data: Option<seq<seq<TxInUndo>>>)
    requires idx.Child? && ChainOk(idx) && ViewOf(view, Replay(idx)) && WrittenFor(file, idx, hasher)
    requires data == ReadFromDisk(file, idx.prev.Hash(), hasher)
    ensures var d := Disconnected(view, idx, data);
            d.Some? && ViewOf(d.value, Replay(idx.prev)) <==> AmountsStorable(UndoOf(idx))
  {
    ReadIsStored(idx, file, hasher, data);
    if data.Some? {
      DisconnectAsRead(view, idx, file.written);
    }
  }

  lemma DisconnectEffect(view: UtxoSet, idx: BlockIndex, undo: map<BlockIndex, UndoFile>, hasher: HashFunction,
                         data: Option<seq<seq<TxInUndo>>>)
    requires idx.Child? && data == if idx in undo then ReadFromDisk(undo[idx], idx.prev.Hash(), hasher) else None
    ensures ShowsChain(view, idx, undo, hasher) ==>
              var d := Disconnected(view, idx, data);
              && ChainOk(idx.prev) && UndoWritten(idx.prev, undo, hasher)
              && (d.Some? && ViewOf(d.value, Replay(idx.prev)) <==> AmountsStorable(UndoOf(idx)))
    ensures ChainOk(idx) && ChainKeepable(idx) ==> AmountsStorable(UndoOf(idx))
  {
    if ShowsChain(view, idx, undo, hasher) {
      DisconnectOnDisk(view, idx, undo[idx], hasher, data);
    }
    if ChainOk(idx) && ChainKeepable(idx) {
      ReplayStorable(idx);
    }
  }

  // ----- where the conditions fail -----

  /** A block whose coinbase pays its whole subsidy to one output. */
  function OneCoin(value: Int64, nVersion: int): (b: Block)
    requires value >= 0
  {
    Block(2, [Transaction(3, nVersion, [OutPoint(0, NULL_INDEX)], [TxOut(value, [])])], true, true, value)
  }

  function OneCoinChain(value: Int64, nVersion: int): BlockIndex
    requires value >= 0
  {
    Child(Genesis(1), OneCoin(value, nVersion))
  }

  lemma ValueOfSubsidy(subsidy: nat)
    requires subsidy < INT64_LIMIT
    ensures BlockValue(subsidy, 0) == subsidy
  {
    var value := BlockValue(subsidy, 0);
    assert value == subsidy % 0x1_0000_0000_0000_0000;
  }

  lemma OneCoinAccepted(value: Int64, nVersion: int)
    requires value >= 0
    ensures var idx := OneCoinChain(value, nVersion);
            && idx.Child? && |idx.block.vtx| == 1 && idx.block.vtx[0].IsCoinBase()
            && ChainOk(idx) && Subsidies(idx) == value
            && Replay(idx) == map[3 := Coins(true, [TxOut(value, [])], 1, nVersion)]
  {
    var block := OneCoin(value, nVersion);
    var vtx := block.vtx;
    var idx := OneCoinChain(value, nVersion);
    var tx := vtx[0];
    assert vtx[..0] == [] && tx.vout[..0] == [];
    assert OutputSum(tx.vout) == value;
    assert Cleared(tx.vout) == tx.vout;
    assert ApplyTxs(map[], vtx, 1) == ApplyTx(map[], tx, 1);
    assert Fees(map[], vtx, 1) == 0;
    ValueOfSubsidy(value);
    assert OutputSum(block.vtx[0].vout) == value;
    assert ConnectOk(map[], block, 1);
    assert Replay(Genesis(1)) == map[] && idx.Height() == 1 && ChainOk(Genesis(1));
    assert Subsidies(Genesis(1)) == 0;
  }

  /** After writing such a block, the worth of what is shown is the amount that comes back. */
  lemma WrittenAmount(value: Int64)
    requires value >= 0
    ensures var back := DiskOut(TxOut(value, []));
            Total(Stored(map[], Replay(OneCoinChain(value, 1)))) == if back.IsNull() then 0 else back.nValue
  {
    OneCoinAccepted(value, 1);
    var back := DiskOut(TxOut(value, []));
    var c := Coins(true, [TxOut(value, [])], 1, 1);
    var d := DiskCopy(c);
    assert DiskOuts(c.vout, 1) == [back];
    ValueTrimmed([back]);
    assert Value([]) == 0 && [back][..0] == [];
    assert Stored(map[], map[3 := c]) == map[3 := d];
    TotalUpdate(map[], 3, d);
  }

  /** Writing an accepted block can create money: the amount comes back about three times as large. */
  lemma WrittenInflation()
    ensures var idx := OneCoinChain(2050248068783227219, 1);
            && ChainOk(idx) && Total(Stored(map[], Replay(idx))) > Subsidies(idx)
  {
    var value := 2050248068783227219;
    AmountIsLost([]);
    OneCoinAccepted(value, 1);
    WrittenAmount(value);
  }

  /** A negative version has another value after writing, and the block is still disconnected cleanly. */
  lemma WrittenVersion(value: Int64, nVersion: int, hasher: HashFunction)
    requires value >= 0 && Storable(TxOut(value, [])) && nVersion < 0
    ensures var idx := OneCoinChain(value, nVersion);
            var view := Stored(map[], Replay(idx));
            var file := WriteToDisk(UndoOf(idx), idx.prev.Hash(), hasher);
            && ChainOk(idx) && ViewOf(view, Replay(idx)) && !SameView(view, Replay(idx))
            && 3 in view && view[3].nVersion == nVersion % 128
            && Disconnected(view, idx, ReadFromDisk(file, idx.prev.Hash(), hasher)).Some?
  {
    var c := Coins(true, [TxOut(value, [])], 1, nVersion);
    OneCoinAccepted(value, nVersion);
    assert !c.vout[0].IsNull() && Lasting(c);
    OneRecordWritten(OneCoinChain(value, nVersion), 3, c, hasher);
  }

  lemma OneRecordWritten(idx: BlockIndex, t: Hash256, c: Coins, hasher: HashFunction)
    requires idx.Child? && ChainOk(idx) && Replay(idx) == map[t := c]
    requires |idx.block.vtx| == 1 && idx.block.vtx[0].IsCoinBase()
    requires !c.IsPruned() && Lasting(c) && c.nVersion < 0
    ensures var view := Stored(map[], Replay(idx));
            var file := WriteToDisk(UndoOf(idx), idx.prev.Hash(), hasher);
            && ViewOf(view, Replay(idx)) && !SameView(view, Replay(idx))
            && t in view && view[t].nVersion == Kept(c.nVersion)
            && Disconnected(view, idx, ReadFromDisk(file, idx.prev.Hash(), hasher)).Some?
  {
    var view := Stored(map[], Replay(idx));
    var file := WriteToDisk(UndoOf(idx), idx.prev.Hash(), hasher);
    StoredVersion(t, c);
    CoinbaseHasNoUndo(idx);
    DisconnectOnDisk(view, idx, file, hasher, ReadFromDisk(file, idx.prev.Hash(), hasher));
  }

  /** One record with a negative version is shown after writing, but with another version. */
  lemma StoredVersion(t: Hash256, c: Coins)
    requires !c.IsPruned() && Lasting(c) && c.nVersion < 0
    ensures var u, view := map[t := c], Stored(map[], map[t := c]);
            ViewOf(view, u) && !SameView(view, u) && t in view && view[t].nVersion == Kept(c.nVersion)
  {
    var u, view := map[t := c], Stored(map[], map[t := c]);
    DiskCopyShows(c);
    assert u[t] == c && view[t] == DiskCopy(c);
    assert forall k: Hash256 :: k != t ==> Lookup(view, k) == Lookup(u, k);
    assert !Lookup(view, t).Same(Lookup(u, t));
  }

  lemma CoinbaseHasNoUndo(idx: BlockIndex)
    requires idx.Child? && |idx.block.vtx| == 1 && idx.block.vtx[0].IsCoinBase()
    ensures AmountsStorable(UndoOf(idx)) && BlockUndoShows(UndoOf(idx), UndoOf(idx))
  {
    assert idx.block.vtx[..0] == [];
    assert BlockUndo(Replay(idx.prev), [], idx.Height()) == [];
  }

  datatype Event = Connect(block: Block) | Disconnect | Write {
    function Offered(): nat {
      if Connect? then block.subsidy else 0
    }
  }

  predicate AllKeepable(events: seq<Event>) {
    forall i :: 0 <= i < |events| && events[i].Connect? ==> Keepable(events[i].block)
  }

  /** The subsidies of all blocks among the first n events, accepted or not. */
  function OfferedBy(events: seq<Event>, n: nat): nat
    requires n <= |events|
  {
    if n == 0 then 0 else OfferedBy(events, n - 1) + events[n - 1].Offered()
  }

  lemma {:induction false} OfferedGrows(events: seq<Event>, n: nat, m: nat)
    requires n <= m <= |events|
    ensures OfferedBy(events, n) <= OfferedBy(events, m)
    decreases m
  {
    if n < m {
      OfferedGrows(events, n, m - 1);
    }
  }

  lemma NextFits(idx: BlockIndex, start: nat, events: seq<Event>, i: nat)
    requires i < |events| && Subsidies(idx) <= start + OfferedBy(events, i)
    requires AllKeepable(events) || 9 * (start + OfferedBy(events, |events|)) < WORD64
    ensures events[i].Connect? ==> Fits(idx, events[i].block)
  {
    OfferedGrows(events, i + 1, |events|);
  }

  class Node {
    var tip: BlockIndex
    var undo: map<BlockIndex, UndoFile>
    const pcoinsTip: CoinsView
    const hasher: HashFunction

    ghost predicate Valid()
      reads this, pcoinsTip.Repr
    {
      && pcoinsTip.Valid() && pcoinsTip.base != null && pcoinsTip.base.base == null
      && pcoinsTip.BestBlock() == tip.Hash() && HashesOk(tip)
    }

    ghost predicate Shown()
      reads this, pcoinsTip.Repr
    {
      Valid() && ShowsChain(pcoinsTip.Visible(), tip, undo, hasher)
    }

    /** And all that its blocks created can be written and read again. */
    ghost predicate Sound()
      reads this, pcoinsTip.Repr
    {
      Shown() && ChainKeepable(tip)
    }

    /** A node with only the genesis block connected. */
    constructor (genesisHash: Hash256, hasher: HashFunction)
      requires genesisHash != 0
      ensures Sound() && tip == Genesis(genesisHash) && fresh(pcoinsTip.Repr)
      ensures pcoinsTip.Visible() == map[]
    {
      var store := new CoinsView.Store();
      var view := new CoinsView.Over(store);
      view.SetBestBlock(genesisHash);
      this.hasher := hasher;
      tip := Genesis(genesisHash);
      undo := map[];
      pcoinsTip := view;
    }

    /** The worth of what a view of the chain shows as unspent never exceeds the subsidies paid. */
    lemma NoInflation()
      requires Shown()
      ensures Total(pcoinsTip.Visible()) <= Subsidies(tip)
    {
      ChainSupply(tip);
      TotalOfView(pcoinsTip.Visible(), Replay(tip));
    }

    /** Without negative versions the view is the replay, up to fully spent records. */
    lemma ExactView()
      requires Shown() && VersionsOk(tip)
      ensures SameView(pcoinsTip.Visible(), Replay(tip))
    {
      ReplayVersions(tip);
      ViewIsSame(pcoinsTip.Visible(), Replay(tip));
    }

    /**
     WriteChainState, when it decides to write: the cache goes to the store.
     The view then still shows the chain exactly if every amount written is
     storable.
     */
    method WriteChainState()
      requires Valid()
      modifies pcoinsTip.Repr
      ensures Valid()
      ensures pcoinsTip.Visible() == Stored(old(pcoinsTip.base.Visible()), old(pcoinsTip.cacheCoins))
      ensures old(Shown()) ==>
                (Shown() <==>
                 forall t :: t in old(pcoinsTip.cacheCoins) ==> AllStorable(old(pcoinsTip.cacheCoins)[t].vout))
      ensures old(Sound()) ==> Sound()
    {
      ghost var below, cache, shown := pcoinsTip.base.Visible(), pcoinsTip.cacheCoins, pcoinsTip.Visible();
      assert shown == below + cache;
      pcoinsTip.Flush();
      if old(Shown()) {
        ReplayWellFormed(tip);
        StoredView(below, cache, Replay(tip));
        if ChainKeepable(tip) {
          ReplayStorable(tip);
          ViewStorable(shown, Replay(tip));
          assert forall t :: t in cache ==> shown[t] == cache[t];
        }
      }
    }

    /** Undo data is written once; a block connected again finds its own undo data there. */
    method RecordUndo(next: BlockIndex, blockundo: seq<seq<TxInUndo>>)
      requires next.Child?
      modifies this`undo
      ensures next in undo && forall i :: i in old(undo) ==> i in undo && undo[i] == old(undo)[i]
      ensures UndoWritten(next.prev, old(undo), hasher) && BlockUndoShows(blockundo, UndoOf(next)) ==>
                UndoWritten(next, undo, hasher)
    {
      if next !in undo {
        ghost var before := undo;
        var file := WriteToDisk(blockundo, next.prev.Hash(), hasher);
        undo := undo[next := file];
        if UndoWritten(next.prev, before, hasher) {
          UndoKnownMore(next.prev, before, next, file);
        }
      }
    }

    /** The block applied to the view through a scratch layer, which is dropped when the block is refused. */
    method ConnectOver(block: Block, nHeight: int) returns (v: Verdict, blockundo: seq<seq<TxInUndo>>)
      requires Valid() && block.hash != 0
      modifies pcoinsTip.Repr
      ensures pcoinsTip.Valid()
      ensures v.Accepted? <==> ConnectOk(old(pcoinsTip.Visible()), block, nHeight)
      ensures v.Accepted? ==> pcoinsTip.Visible() == ApplyTxs(old(pcoinsTip.Visible()), block.vtx, nHeight)
      ensures v.Accepted? ==> blockundo == BlockUndo(old(pcoinsTip.Visible()), block.vtx, nHeight)
      ensures v.Invalid? ==> pcoinsTip.Visible() == old(pcoinsTip.Visible())
      ensures pcoinsTip.BestBlock() == if v.Accepted? then block.hash else old(pcoinsTip.BestBlock())
    {
      var view := new CoinsView.Over(pcoinsTip);
      v, blockundo := ConnectBlock(block, nHeight, view);
      if v.Invalid? {
        return;
      }
      ghost var shown := view.Visible();
      view.Flush();
      assert pcoinsTip.Visible() == shown;
    }

    function NextHeight(): nat
      reads this`tip
    {
      tip.Height() + 1
    }

    /** ConnectTip, in terms of the view alone. */
    method ExtendTip(block: Block, nHeight: nat) returns (v: Verdict)
      requires Valid() && block.hash != 0 && nHeight == NextHeight()
      modifies this, pcoinsTip.Repr
      ensures Valid()
      ensures v.Accepted? <==> ConnectOk(old(pcoinsTip.Visible()), block, nHeight)
      ensures v.Accepted? ==> tip == Child(old(tip), block)
      ensures v.Accepted? ==> pcoinsTip.Visible() == ApplyTxs(old(pcoinsTip.Visible()), block.vtx, nHeight)
      ensures v.Accepted? && UndoWritten(old(tip), old(undo), hasher)
              && BlockUndoShows(BlockUndo(old(pcoinsTip.Visible()), block.vtx, nHeight), UndoOf(tip)) ==>
                UndoWritten(tip, undo, hasher)
      ensures v.Invalid? ==> tip == old(tip) && undo == old(undo)
      ensures v.Invalid? ==> pcoinsTip.Visible() == old(pcoinsTip.Visible())
    {
      var next := Child(tip, block);
      assert HashesOk(next) && next.Hash() == block.hash;
      ghost var ok := ConnectOk(pcoinsTip.Visible(), block, nHeight);
      var blockundo;
      v, blockundo := ConnectOver(block, nHeight);
      assert v.Accepted? <==> ok;
      if v.Accepted? {
        Adopt(next, blockundo);
      }
    }

    /**
     A block extends the active chain exactly when the rules accept it on the
     view; on a view of the chain, exactly when they accept it on the replay.
     A refused block leaves everything as it was.
     */
    method ConnectTip(block: Block) returns (v: Verdict)
      requires Valid() && block.hash != 0
      modifies this, pcoinsTip.Repr
      ensures Valid()
      ensures v.Accepted? <==> ConnectOk(old(pcoinsTip.Visible()), block, old(NextHeight()))
      ensures v.Accepted? ==> tip == Child(old(tip), block)
      ensures v.Accepted? ==>
                pcoinsTip.Visible() == ApplyTxs(old(pcoinsTip.Visible()), block.vtx, old(NextHeight()))
      ensures v.Invalid? ==> tip == old(tip) && undo == old(undo)
      ensures v.Invalid? ==> pcoinsTip.Visible() == old(pcoinsTip.Visible())
      ensures old(Shown()) ==> Shown() && (v.Accepted? <==> ChainOk(Child(old(tip), block)))
      ensures old(Sound()) && (v.Accepted? ==> Fits(old(tip), block)) ==> Sound()
    {
      var nHeight := NextHeight();
      ghost var ok := ConnectOk(pcoinsTip.Visible(), block, nHeight);
      assert Child(tip, block).Height() == nHeight;
      ConnectEffect(pcoinsTip.Visible(), tip, block, ok);
      v := ExtendTip(block, nHeight);
      assert v.Accepted? <==> ok;
    }

    /** The bookkeeping after a block has been connected. */
    method Adopt(next: BlockIndex, blockundo: seq<seq<TxInUndo>>)
      requires next.Child? && next.prev == tip
      modifies this`undo, this`tip
      ensures tip == next
      ensures UndoWritten(old(tip), old(undo), hasher) && BlockUndoShows(blockundo, UndoOf(next)) ==>
                UndoWritten(next, undo, hasher)
    {
      RecordUndo(next, blockundo);
      tip := next;
    }

    /** The undo data of the tip as DisconnectTip finds it. */
    function TipUndo(): Option<seq<seq<TxInUndo>>>
      requires tip.Child?
      reads this
    {
      if tip in undo then ReadFromDisk(undo[tip], tip.prev.Hash(), hasher) else None
    }

    /** The tip undone through a scratch layer, which is dropped unless that was clean. */
    method DisconnectOver(data: Option<seq<seq<TxInUndo>>>) returns (ok: bool)
      requires Valid() && tip.Child? && data == TipUndo()
      modifies pcoinsTip.Repr
      ensures pcoinsTip.Valid()
      ensures ok <==> Disconnected(old(pcoinsTip.Visible()), tip, data).Some?
      ensures ok ==> pcoinsTip.Visible() == Disconnected(old(pcoinsTip.Visible()), tip, data).value
      ensures !ok ==> pcoinsTip.Visible() == old(pcoinsTip.Visible())
      ensures pcoinsTip.BestBlock() == if ok then tip.prev.Hash() else old(pcoinsTip.BestBlock())
    {
      assert HashesOk(tip.prev);
      var hashPrev := tip.prev.Hash();
      assert hashPrev != 0;
      var view := new CoinsView.Over(pcoinsTip);
      var r := DisconnectBlock(tip.block, tip.Height(), hashPrev, tip in undo, data, view);
      ok := r.Done? && r.clean;
      if !ok {
        return;
      }
      ghost var shown := view.Visible();
      view.Flush();
      assert pcoinsTip.Visible() == shown;
    }

    /**
     The tip is disconnected if its undo data can be read, fits and undoes the
     block cleanly; else everything stays.  From a view of the chain it succeeds
     and leaves a view of the parent chain exactly if the amounts in the undo data
     are storable, negative versions or not; on a chain of keepable blocks they are.
     */
    method DisconnectTip() returns (ok: bool)
      requires Valid() && tip.Child?
      modifies this, pcoinsTip.Repr
      ensures Valid() && undo == old(undo)
      ensures ok <==> Disconnected(old(pcoinsTip.Visible()), old(tip), old(TipUndo())).Some?
      ensures ok ==> tip == old(tip).prev
      ensures ok ==> pcoinsTip.Visible() == Disconnected(old(pcoinsTip.Visible()), old(tip), old(TipUndo())).value
      ensures !ok ==> tip == old(tip) && pcoinsTip.Visible() == old(pcoinsTip.Visible())
      ensures old(Shown()) ==> (ok && Shown() <==> AmountsStorable(UndoOf(old(tip))))
      ensures old(Sound()) ==> ok && Sound()
    {
      var data := TipUndo();
      DisconnectEffect(pcoinsTip.Visible(), tip, undo, hasher, data);
      ok := DisconnectOver(data);
      if ok {
        tip := tip.prev;
      }
    }

    lemma Conclusions()
      requires Shown()
      ensures ViewOf(pcoinsTip.Visible(), Replay(tip)) && Total(pcoinsTip.Visible()) <= Subsidies(tip)
      ensures VersionsOk(tip) ==> SameView(pcoinsTip.Visible(), Replay(tip))
    {
      NoInflation();
      if VersionsOk(tip) {
        ExactView();
      }
    }

    /** One event of a run. */
    method Handle(event: Event)
      requires Valid()
      modifies this, pcoinsTip.Repr
      ensures Valid() && Subsidies(tip) <= Subsidies(old(tip)) + event.Offered()
      ensures old(Sound()) && (event.Connect? ==> Fits(old(tip), event.block)) ==> Sound()
    {
      match event
      case Connect(block) =>
        if block.hash != 0 {
          var v := ConnectTip(block);
        }
      case Disconnect =>
        if tip.Child? {
          var ok := DisconnectTip();
        }
      case Write =>
        WriteChainState();
    }

    /**
     Any run over blocks whose spendable outputs are storable, or whose
     subsidies together stay below a ninth of 2^64: whatever arrives, is refused
     or is undone, and whenever the cache is written, the view shows the chain.
     */
    method Run(events: seq<Event>)
      requires Sound() && (AllKeepable(events) || 9 * (Subsidies(tip) + OfferedBy(events, |events|)) < WORD64)
      modifies this, pcoinsTip.Repr
      ensures Sound()
      ensures ViewOf(pcoinsTip.Visible(), Replay(tip)) && Total(pcoinsTip.Visible()) <= Subsidies(tip)
      ensures VersionsOk(tip) ==> SameView(pcoinsTip.Visible(), Replay(tip))
    {
      ghost var start := Subsidies(tip);
      for i := 0 to |events|
        invariant Sound() && Subsidies(tip) <= start + OfferedBy(events, i)
      {
        NextFits(tip, start, events, i);
        Handle(events[i]);
      }
      Conclusions();
    }
  }
}
