/**
 The checks and updates of main.cpp over a coins view: CheckTransaction,
 CheckBlock, CheckInputs, UpdateCoins, ConnectBlock and DisconnectBlock.
 Each is proved against its specification in module Utxo.
 */
module Validation {
  import opened Coins
  import opened Utxo
  import opened CoinsViews
  import opened Options

  /** CValidationState: accepted, or refused with the reject reason. */
  datatype Verdict = Accepted | Invalid(reason: string, corruptionPossible: bool)

  /** CTransaction::GetValueOut; OutOfRange where it throws. */
  datatype Amount = Amount(value: Int64) | OutOfRange

  lemma {:induction false} OutputSumPrefix(vout: seq<TxOut>, i: nat)
    requires i <= |vout| && forall k :: 0 <= k < |vout| ==> vout[k].nValue >= 0
    ensures OutputSum(vout[..i]) <= OutputSum(vout)
    decreases |vout| - i
  {
    if i == |vout| {
      assert vout[..i] == vout;
    } else {
      assert vout[..i + 1][..i] == vout[..i];
      OutputSumPrefix(vout, i + 1);
    }
  }

  /** The running sum: in range up to the next output exactly when no wrap-around shows as a negative sum. */
  lemma OutputStep(vout: seq<TxOut>, i: nat)
    requires i < |vout| && OutputsInRange(vout[..i]) && vout[i].nValue >= 0
    ensures OutputSum(vout[..i]) >= 0 && OutputSum(vout[..i + 1]) == OutputSum(vout[..i]) + vout[i].nValue
    ensures MoneyRange(WrapInt64(OutputSum(vout[..i]) + vout[i].nValue)) <==> OutputSum(vout[..i + 1]) < INT64_LIMIT
  {
    assert vout[..i + 1][..i] == vout[..i];
    OutputSumNonNegative(vout[..i]);
  }

  method GetValueOut(tx: Transaction) returns (r: Amount)
    ensures r.Amount? <==> OutputsInRange(tx.vout)
    ensures r.Amount? ==> r.value == OutputSum(tx.vout)
  {
    var nValueOut: Int64 := 0;
    var vout := tx.vout;
    for i := 0 to |vout|
      invariant OutputsInRange(vout[..i]) && nValueOut == OutputSum(vout[..i])
    {
      if vout[i].nValue >= 0 {
        OutputStep(vout, i);
      }
      nValueOut := WrapInt64(nValueOut + vout[i].nValue);
      if !MoneyRange(vout[i].nValue) || !MoneyRange(nValueOut) {
        if OutputsInRange(vout) {
          OutputSumPrefix(vout, i + 1);
        }
        return OutOfRange;
      }
    }
    assert vout[..|vout|] == vout;
    r := Amount(nValueOut);
  }

  /** Duplicate inputs, found through a set. */
  method HasDuplicates(vin: seq<OutPoint>) returns (r: bool)
    ensures r <==> !Distinct(vin)
  {
    var vInOutPoints: set<OutPoint> := {};
    for i := 0 to |vin|
      invariant vInOutPoints == set k | 0 <= k < i :: vin[k]
      invariant Distinct(vin[..i])
    {
      if vin[i] in vInOutPoints {
        return true;
      }
      vInOutPoints := vInOutPoints + {vin[i]};
    }
    assert vin[..|vin|] == vin;
    r := false;
  }

  method CheckTransaction(tx: Transaction) returns (v: Verdict)
    ensures v.Accepted? <==> TransactionOk(tx)
    ensures v.Invalid? ==> !v.corruptionPossible
  {
    if tx.vin == [] {
      return Invalid("bad-txns-vin-empty", false);
    }
    if tx.vout == [] {
      return Invalid("bad-txns-vout-empty", false);
    }
    var nValueOut: Int64 := 0;
    var vout := tx.vout;
    for i := 0 to |vout|
      invariant OutputsInRange(vout[..i]) && nValueOut == OutputSum(vout[..i])
    {
      if vout[i].nValue < 0 {
        return Invalid("bad-txns-vout-negative", false);
      }
      if vout[i].nValue > MAX_MONEY {
        return Invalid("bad-txns-vout-toolarge", false);
      }
      OutputStep(vout, i);
      nValueOut := WrapInt64(nValueOut + vout[i].nValue);
      if !MoneyRange(nValueOut) {
        if OutputsInRange(vout) {
          OutputSumPrefix(vout, i + 1);
        }
        return Invalid("bad-txns-txouttotal-toolarge", false);
      }
    }
    assert vout[..|vout|] == vout;
    var duplicate := HasDuplicates(tx.vin);
    if duplicate {
      return Invalid("bad-txns-inputs-duplicate", false);
    }
    if !tx.IsCoinBase() {
      for i := 0 to |tx.vin|
        invariant forall k :: 0 <= k < i ==> !tx.vin[k].IsNull()
      {
        if tx.vin[i].IsNull() {
          return Invalid("bad-txns-prevout-null", false);
        }
      }
    }
    v := Accepted;
  }

  function Txids(vtx: seq<Transaction>): set<Hash256> {
    if vtx == [] then {} else Txids(vtx[..|vtx| - 1]) + {vtx[|vtx| - 1].txid}
  }

  lemma {:induction false} TxidsMember(vtx: seq<Transaction>, t: Hash256)
    ensures t in Txids(vtx) <==> exists i :: 0 <= i < |vtx| && vtx[i].txid == t
  {
    if vtx != [] {
      var k := |vtx| - 1;
      TxidsMember(vtx[..k], t);
      assert forall i :: 0 <= i < k ==> vtx[..k][i] == vtx[i];
    }
  }

  /** A set of txids is as large as the list exactly when no txid repeats. */
  lemma {:induction false} UniqueBySize(vtx: seq<Transaction>)
    ensures |Txids(vtx)| <= |vtx| && (|Txids(vtx)| == |vtx| <==> UniqueTxids(vtx))
  {
    if vtx != [] {
      var k := |vtx| - 1;
      UniqueBySize(vtx[..k]);
      TxidsMember(vtx[..k], vtx[k].txid);
      assert forall i :: 0 <= i < k ==> vtx[..k][i] == vtx[i];
      if vtx[k].txid in Txids(vtx[..k]) {
        assert Txids(vtx) == Txids(vtx[..k]);
      }
    }
  }

  method CheckBlock(block: Block) returns (v: Verdict)
    ensures v.Accepted? <==> BlockOk(block)
  {
    if !block.checkOk {
      return Invalid("bad-blk", false);
    }
    if block.vtx == [] {
      return Invalid("bad-blk-length", false);
    }
    if !block.vtx[0].IsCoinBase() {
      return Invalid("bad-cb-missing", false);
    }
    for i := 1 to |block.vtx|
      invariant forall k :: 1 <= k < i ==> !block.vtx[k].IsCoinBase()
    {
      if block.vtx[i].IsCoinBase() {
        return Invalid("bad-cb-multiple", false);
      }
    }
    for i := 0 to |block.vtx|
      invariant forall k :: 0 <= k < i ==> TransactionOk(block.vtx[k])
    {
      v := CheckTransaction(block.vtx[i]);
      if v.Invalid? {
        return;
      }
    }
    var uniqueTx: set<Hash256> := {};
    for i := 0 to |block.vtx|
      invariant uniqueTx == Txids(block.vtx[..i])
    {
      assert block.vtx[..i + 1][..i] == block.vtx[..i];
      uniqueTx := uniqueTx + {block.vtx[i].txid};
    }
    assert block.vtx[..|block.vtx|] == block.vtx;
    UniqueBySize(block.vtx);
    if |uniqueTx| != |block.vtx| {
      return Invalid("bad-txns-duplicate", true);
    }
    v := Accepted;
  }

  lemma {:induction false} InputSumPrefix(u: UtxoSet, vin: seq<OutPoint>, i: nat)
    requires i <= |vin| && forall k :: 0 <= k < |vin| ==> InputOutput(u, vin[k]).nValue >= 0
    ensures 0 <= InputSum(u, vin[..i]) <= InputSum(u, vin)
    decreases |vin|
  {
    if i == |vin| {
      assert vin[..i] == vin;
      if vin != [] {
        InputSumPrefix(u, vin[..i - 1], i - 1);
      }
    } else {
      var k := |vin| - 1;
      assert vin[..k][..i] == vin[..i];
      InputSumPrefix(u, vin[..k], i);
    }
  }

  /** The inputs seen so far are mature and their sum has not wrapped. */
  predicate InputsSoFar(u: UtxoSet, vin: seq<OutPoint>, nSpendHeight: int) {
    && (forall k :: 0 <= k < |vin| ==> Mature(Lookup(u, vin[k].hash), nSpendHeight))
    && (forall k :: 0 <= k < |vin| ==> InputOutput(u, vin[k]).nValue >= 0)
    && 0 <= InputSum(u, vin) < INT64_LIMIT
  }

  /** The checks on one more input pass exactly when the prefix including it is still good. */
  lemma InputStep(u: UtxoSet, vin: seq<OutPoint>, nSpendHeight: int, i: nat)
    requires i < |vin| && InputsSoFar(u, vin[..i], nSpendHeight)
    ensures InputSum(u, vin[..i + 1]) == InputSum(u, vin[..i]) + InputOutput(u, vin[i]).nValue
    ensures var nValue := InputOutput(u, vin[i]).nValue;
            InputsSoFar(u, vin[..i + 1], nSpendHeight) <==>
            Mature(Lookup(u, vin[i].hash), nSpendHeight) && nValue >= 0 && InputSum(u, vin[..i]) + nValue < INT64_LIMIT
  {
    assert vin[..i + 1][..i] == vin[..i];
    assert forall k :: 0 <= k < i ==> vin[..i + 1][k] == vin[..i][k];
    assert vin[..i + 1][i] == vin[i];
  }

  lemma InputsSoFarPrefix(u: UtxoSet, vin: seq<OutPoint>, nSpendHeight: int, i: nat)
    requires i <= |vin| && InputsSoFar(u, vin, nSpendHeight)
    ensures InputsSoFar(u, vin[..i], nSpendHeight)
  {
    InputSumPrefix(u, vin, i);
  }

  lemma InputsOkParts(u: UtxoSet, tx: Transaction, nSpendHeight: int)
    ensures InputsOk(u, tx, nSpendHeight) <==>
            && HaveInputs(u, tx.vin)
            && InputsSoFar(u, tx.vin, nSpendHeight)
            && InputSum(u, tx.vin) >= OutputSum(tx.vout)
  {
    if InputsOk(u, tx, nSpendHeight) {
      InputSumPrefix(u, tx.vin, 0);
    }
  }

  /** One input of CheckInputs: a coinbase output must be mature. */
  method CheckInput(out: OutPoint, view: CoinsView, nSpendHeight: int) returns (v: Verdict, nValue: Int64)
    requires view.Valid() && Available(view.Visible(), out)
    modifies view.Repr`cacheCoins
    ensures view.Visible() == old(view.Visible()) && view.BaseVisible() == old(view.BaseVisible())
    ensures v.Accepted? <==> Mature(Lookup(view.Visible(), out.hash), nSpendHeight)
    ensures nValue == InputOutput(view.Visible(), out).nValue
    ensures v.Invalid? ==> !v.corruptionPossible
  {
    var _, coins := view.GetCoins(out.hash);
    v, nValue := Accepted, coins.vout[out.n].nValue;
    if coins.fCoinBase {
      if nSpendHeight - coins.nHeight < RequiredMaturityDepth(coins.nHeight) {
        v := Invalid("bad-txns-premature-spend-of-coinbase", false);
      }
    }
  }

  /** The range test of a running sum: a 64-bit wrap-around always shows as a negative sum. */
  method AddInRange(sum: Int64, x: Int64) returns (ok: bool, r: Int64)
    requires sum >= 0
    ensures ok <==> x >= 0 && sum + x < INT64_LIMIT
    ensures ok ==> r == sum + x
  {
    r := WrapInt64(sum + x);
    ok := MoneyRange(x) && MoneyRange(r);
  }

  /** The loop of CheckInputs over the inputs: maturity and amounts. */
  method SumInputs(tx: Transaction, view: CoinsView, nSpendHeight: int) returns (v: Verdict, nValueIn: Int64)
    requires view.Valid() && HaveInputs(view.Visible(), tx.vin)
    modifies view.Repr`cacheCoins
    ensures view.Visible() == old(view.Visible()) && view.BaseVisible() == old(view.BaseVisible())
    ensures v.Accepted? <==> InputsSoFar(view.Visible(), tx.vin, nSpendHeight)
    ensures v.Accepted? ==> nValueIn == InputSum(view.Visible(), tx.vin)
    ensures v.Invalid? ==> !v.corruptionPossible
  {
    ghost var u := view.Visible();
    nValueIn := 0;
    var vin := tx.vin;
    for i := 0 to |vin|
      invariant view.Visible() == u && view.BaseVisible() == old(view.BaseVisible())
      invariant InputsSoFar(u, vin[..i], nSpendHeight) && nValueIn == InputSum(u, vin[..i])
    {
      var nValue: Int64;
      v, nValue := CheckInput(vin[i], view, nSpendHeight);
      InputStep(u, vin, nSpendHeight, i);
      if InputsSoFar(u, vin, nSpendHeight) {
        InputsSoFarPrefix(u, vin, nSpendHeight, i + 1);
      }
      if v.Invalid? {
        return;
      }
      var inRange;
      inRange, nValueIn := AddInRange(nValueIn, nValue);
      if !inRange {
        v := Invalid("bad-txns-inputvalues-outofrange", false);
        return;
      }
    }
    assert vin[..|vin|] == vin;
    v := Accepted;
  }

  /** CheckInputs up to the scripts; nSpendHeight is one above the view's best block. */
  method CheckInputs(tx: Transaction, view: CoinsView, nSpendHeight: int) returns (v: Verdict)
    requires view.Valid() && OutputsInRange(tx.vout)
    modifies view.Repr`cacheCoins
    ensures view.Visible() == old(view.Visible()) && view.BaseVisible() == old(view.BaseVisible())
    ensures v.Accepted? <==> tx.IsCoinBase() || InputsOk(view.Visible(), tx, nSpendHeight)
    ensures v.Invalid? ==> !v.corruptionPossible
  {
    if tx.IsCoinBase() {
      return Accepted;
    }
    var have := view.HaveInputs(tx);
    if !have {
      return Invalid("inputs unavailable", false);
    }
    var nValueIn: Int64;
    v, nValueIn := SumInputs(tx, view, nSpendHeight);
    InputsOkParts(view.Visible(), tx, nSpendHeight);
    if v.Invalid? {
      return;
    }
    OutputSumNonNegative(tx.vout);
    var out := GetValueOut(tx);
    if nValueIn < out.value {
      return Invalid("bad-txns-in-belowout", false);
    }
    var nTxFee := WrapInt64(nValueIn - out.value);
    if nTxFee < 0 {
      return Invalid("bad-txns-fee-negative", false);
    }
    if !MoneyRange(nTxFee) {
      return Invalid("bad-txns-fee-outofrange", false);
    }
  }

  /** Mark the inputs spent; the assertion that each spend succeeds always holds. */
  method SpendInputs(vin: seq<OutPoint>, view: CoinsView) returns (txundo: seq<TxInUndo>)
    requires view.Valid() && view.base != null
    requires HaveInputs(view.Visible(), vin) && Distinct(vin)
    modifies view.Repr`cacheCoins
    ensures view.Visible() == SpendAll(old(view.Visible()), vin) && view.BaseVisible() == old(view.BaseVisible())
    ensures txundo == InputUndos(old(view.Visible()), vin)
  {
    txundo := [];
    ghost var u := view.Visible();
    for i := 0 to |vin|
      invariant view.Visible() == SpendAll(u, vin[..i]) && view.BaseVisible() == old(view.BaseVisible())
      invariant txundo == InputUndos(u, vin[..i])
    {
      SpendNeverFails(u, vin, i);
      assert vin[..i + 1][..i] == vin[..i];
      ghost var now := view.Visible();
      var _, coins := view.GetCoins(vin[i].hash);
      var ret, spent, undo := Spend(coins, vin[i].n);
      assert ret;
      view.SetCoins(vin[i].hash, spent);
      assert view.Visible() == SpendInput(now, vin[i]) && undo == InputUndo(now, vin[i]);
      txundo := txundo + [undo];
    }
    assert vin[..|vin|] == vin;
  }

  /** UpdateCoins. */
  method UpdateCoins(tx: Transaction, view: CoinsView, nHeight: int) returns (txundo: seq<TxInUndo>)
    requires view.Valid() && view.base != null
    requires tx.IsCoinBase() || (HaveInputs(view.Visible(), tx.vin) && Distinct(tx.vin))
    modifies view.Repr`cacheCoins
    ensures view.Visible() == ApplyTx(old(view.Visible()), tx, nHeight)
    ensures view.BaseVisible() == old(view.BaseVisible())
    ensures txundo == if tx.IsCoinBase() then [] else InputUndos(old(view.Visible()), tx.vin)
  {
    txundo := [];
    if !tx.IsCoinBase() {
      txundo := SpendInputs(tx.vin, view);
    }
    var vout := ClearUnspendable(tx.vout);
    view.SetCoins(tx.txid, Coins(tx.IsCoinBase(), vout, nHeight, tx.nVersion));
  }

  /** Transactions up to i have been applied, and their undo data recorded. */
  ghost predicate AppliedSoFar(u: UtxoSet, vtx: seq<Transaction>, nHeight: int, now: UtxoSet,
                               undo: seq<seq<TxInUndo>>) {
    && TxsOk(u, vtx, nHeight)
    && now == ApplyTxs(u, vtx, nHeight)
    && undo == BlockUndo(u, vtx, nHeight)
  }

  lemma {:induction false} TxsOkPrefix(u: UtxoSet, vtx: seq<Transaction>, nHeight: int, i: nat)
    requires i <= |vtx| && TxsOk(u, vtx, nHeight)
    ensures TxsOk(u, vtx[..i], nHeight)
    decreases |vtx|
  {
    if i == |vtx| {
      assert vtx[..i] == vtx;
    } else {
      var k := |vtx| - 1;
      assert vtx[..k][..i] == vtx[..i];
      TxsOkPrefix(u, vtx[..k], nHeight, i);
    }
  }

  /** 64-bit addition to a running sum whose true value is known to the proof. */
  method AddWrapped(sum: Int64, x: Int64, ghost before: int, ghost after: int) returns (r: Int64)
    requires sum == WrapInt64(before) && after == before + x
    ensures r == WrapInt64(after)
  {
    WrapAdd(before, x);
    r := WrapInt64(sum + x);
  }

  /** One transaction of ConnectBlock, with its fee: what it spends minus what it creates. */
  method ConnectTx(tx: Transaction, view: CoinsView, nHeight: int)
    returns (v: Verdict, txundo: seq<TxInUndo>, fee: Int64)
    requires view.Valid() && view.base != null && TransactionOk(tx)
    modifies view.Repr`cacheCoins
    ensures view.BaseVisible() == old(view.BaseVisible())
    ensures v.Accepted? <==> tx.IsCoinBase() || InputsOk(old(view.Visible()), tx, nHeight)
    ensures v.Accepted? ==> view.Visible() == ApplyTx(old(view.Visible()), tx, nHeight)
    ensures v.Accepted? && !tx.IsCoinBase() ==> txundo == InputUndos(old(view.Visible()), tx.vin)
    ensures v.Accepted? ==>
              fee == if tx.IsCoinBase() then 0 else InputSum(old(view.Visible()), tx.vin) - OutputSum(tx.vout)
  {
    v, txundo, fee := Accepted, [], 0;
    if !tx.IsCoinBase() {
      var have := view.HaveInputs(tx);
      if !have {
        v := Invalid("bad-txns-inputs-missingorspent", false);
        return;
      }
      var valueIn := view.GetValueIn(tx);
      var valueOut := GetValueOut(tx);
      fee := WrapInt64(valueIn - valueOut.value);
      v := CheckInputs(tx, view, nHeight);
      if v.Invalid? {
        return;
      }
      OutputSumNonNegative(tx.vout);
    }
    txundo := UpdateCoins(tx, view, nHeight);
  }

  /** BIP 30: refuse a transaction whose id still has unspent outputs. */
  method WouldOverwrite(vtx: seq<Transaction>, view: CoinsView) returns (r: bool)
    requires view.Valid()
    modifies view.Repr`cacheCoins
    ensures view.Visible() == old(view.Visible()) && view.BaseVisible() == old(view.BaseVisible())
    ensures r <==> !NoOverwrite(view.Visible(), vtx)
  {
    for i := 0 to |vtx|
      invariant view.Visible() == old(view.Visible()) && view.BaseVisible() == old(view.BaseVisible())
      invariant forall k :: 0 <= k < i ==> Lookup(view.Visible(), vtx[k].txid).IsPruned()
    {
      var have, coins := view.GetCoins(vtx[i].txid);
      if have && !coins.IsPruned() {
        return true;
      }
    }
    r := false;
  }

  /** What one more transaction adds. */
  lemma AppliedStep(u: UtxoSet, vtx: seq<Transaction>, nHeight: int, k: nat)
    requires k < |vtx|
    ensures var now := ApplyTxs(u, vtx[..k], nHeight);
            && (TxsOk(u, vtx[..k + 1], nHeight) <==>
                TxsOk(u, vtx[..k], nHeight) && (vtx[k].IsCoinBase() || InputsOk(now, vtx[k], nHeight)))
            && ApplyTxs(u, vtx[..k + 1], nHeight) == ApplyTx(now, vtx[k], nHeight)
            && Fees(u, vtx[..k + 1], nHeight) == Fees(u, vtx[..k], nHeight) +
                 (if vtx[k].IsCoinBase() then 0 else InputSum(now, vtx[k].vin) - OutputSum(vtx[k].vout))
            && BlockUndo(u, vtx[..k + 1], nHeight) == BlockUndo(u, vtx[..k], nHeight) +
                 (if vtx[k].IsCoinBase() then [] else [InputUndos(now, vtx[k].vin)])
  {
    assert vtx[..k + 1][..k] == vtx[..k];
  }

  /** The loop of ConnectBlock over the transactions. */
  method ConnectTxs(vtx: seq<Transaction>, nHeight: int, view: CoinsView)
    returns (v: Verdict, blockundo: seq<seq<TxInUndo>>, nFees: Int64)
    requires view.Valid() && view.base != null && TxsWellFormed(vtx)
    modifies view.Repr`cacheCoins
    ensures view.BaseVisible() == old(view.BaseVisible())
    ensures v.Accepted? <==> TxsOk(old(view.Visible()), vtx, nHeight)
    ensures v.Accepted? ==> AppliedSoFar(old(view.Visible()), vtx, nHeight, view.Visible(), blockundo)
    ensures v.Accepted? ==> nFees == WrapInt64(Fees(old(view.Visible()), vtx, nHeight))
  {
    ghost var u := view.Visible();
    v, blockundo, nFees := Accepted, [], 0;
    for i := 0 to |vtx|
      invariant v.Accepted? && AppliedSoFar(u, vtx[..i], nHeight, view.Visible(), blockundo)
      invariant nFees == WrapInt64(Fees(u, vtx[..i], nHeight))
      invariant view.BaseVisible() == old(view.BaseVisible())
    {
      assert TransactionOk(vtx[i]);
      var txundo, fee;
      v, txundo, fee := ConnectTx(vtx[i], view, nHeight);
      AppliedStep(u, vtx, nHeight, i);
      if v.Invalid? {
        if TxsOk(u, vtx, nHeight) {
          TxsOkPrefix(u, vtx, nHeight, i + 1);
        }
        return;
      }
      if !vtx[i].IsCoinBase() {
        blockundo := blockundo + [txundo];
      }
      nFees := AddWrapped(nFees, fee, Fees(u, vtx[..i], nHeight), Fees(u, vtx[..i + 1], nHeight));
    }
    assert vtx[..|vtx|] == vtx;
  }

  /** The coinbase limit; the fees have been summed in 64 bits, fees is their true sum. */
  method PaysTooMuch(tx: Transaction, subsidy: nat, nFees: Int64, ghost fees: int) returns (r: bool)
    requires OutputsInRange(tx.vout) && nFees == WrapInt64(fees)
    ensures r <==> OutputSum(tx.vout) > BlockValue(subsidy, fees)
  {
    var coinbaseOut := GetValueOut(tx);
    r := coinbaseOut.value > BlockValue(subsidy, nFees);
  }

  /**
   ConnectBlock for a block that is not the genesis block.  It accepts exactly
   the blocks the rules allow; on acceptance the view shows the block applied
   and its hash as best block; the base of the view never changes.
   */
  method ConnectBlock(block: Block, nHeight: int, view: CoinsView) returns (v: Verdict, blockundo: seq<seq<TxInUndo>>)
    requires view.Valid() && view.base != null && block.hash != 0
    modifies view.Repr`cacheCoins, view`hashBlock
    ensures view.BaseVisible() == old(view.BaseVisible()) && view.BaseBestBlock() == old(view.BaseBestBlock())
    ensures v.Accepted? <==> ConnectOk(old(view.Visible()), block, nHeight)
    ensures v.Accepted? ==> view.Visible() == ApplyTxs(old(view.Visible()), block.vtx, nHeight)
    ensures v.Accepted? ==> view.hashBlock == block.hash
    ensures v.Accepted? ==> blockundo == BlockUndo(old(view.Visible()), block.vtx, nHeight)
  {
    blockundo := [];
    v := CheckBlock(block);
    if v.Invalid? {
      return;
    }
    ghost var u := view.Visible();
    var overwrite := WouldOverwrite(block.vtx, view);
    if overwrite {
      v := Invalid("bad-txns-BIP30", false);
      return;
    }
    var nFees: Int64;
    v, blockundo, nFees := ConnectTxs(block.vtx, nHeight, view);
    if v.Invalid? {
      return;
    }
    assert TransactionOk(block.vtx[0]);
    var tooMuch := PaysTooMuch(block.vtx[0], block.subsidy, nFees, Fees(u, block.vtx, nHeight));
    if tooMuch {
      v := Invalid("bad-cb-amount", false);
      return;
    }
    if !block.scriptsOk {
      v := Invalid("scripts", false);
      return;
    }
    view.SetBestBlock(block.hash);
  }

  // ----- DisconnectBlock -----

  /** DisconnectBlock with pfClean given: it stopped early, or finished with a cleanliness report. */
  datatype DisconnectResult = Failed(reason: string) | Done(clean: bool)

  /** Remove the outputs of one transaction, comparing them with the block. */
  method UncreateOutputs(tx: Transaction, nHeight: int, view: CoinsView) returns (clean: bool)
    requires view.Valid() && view.base != null
    modifies view.Repr`cacheCoins
    ensures view.BaseVisible() == old(view.BaseVisible())
    ensures (view.Visible(), clean) == RemoveOutputs(old(view.Visible()), tx, nHeight)
  {
    var have, outs := view.GetCoins(tx.txid);
    var cleared := ClearUnspendable(outs.vout);
    outs := outs.(vout := cleared);
    var blockVout := ClearUnspendable(tx.vout);
    var outsBlock := Coins(tx.IsCoinBase(), blockVout, nHeight, tx.nVersion);
    if outsBlock.nVersion < 0 {
      outs := outs.(nVersion := outsBlock.nVersion);
    }
    clean := outs.Same(outsBlock);
    if have {
      view.SetCoins(tx.txid, EMPTY_COINS);
    }
  }

  /** Restore one input from its undo record. */
  method UnspendInput(out: OutPoint, undo: TxInUndo, view: CoinsView) returns (clean: bool)
    requires view.Valid() && view.base != null
    modifies view.Repr`cacheCoins
    ensures view.BaseVisible() == old(view.BaseVisible())
    ensures (view.Visible(), clean) == RestoreInput(old(view.Visible()), out, undo)
  {
    clean := true;
    var _, coins := view.GetCoins(out.hash);
    if undo.nHeight != 0 {
      if !coins.IsPruned() {
        clean := false;
      }
      coins := Coins(undo.fCoinBase, [], undo.nHeight, undo.nVersion);
    } else {
      if coins.IsPruned() {
        clean := false;
      }
    }
    if coins.IsAvailable(out.n) {
      clean := false;
    }
    if |coins.vout| < out.n + 1 {
      coins := coins.(vout := Resized(coins.vout, out.n + 1));
    }
    coins := coins.(vout := coins.vout[out.n := undo.txout]);
    view.SetCoins(out.hash, coins);
  }

  method UnspendInputs(vin: seq<OutPoint>, undos: seq<TxInUndo>, view: CoinsView) returns (clean: bool)
    requires view.Valid() && view.base != null && |vin| == |undos|
    modifies view.Repr`cacheCoins
    ensures view.BaseVisible() == old(view.BaseVisible())
    ensures (view.Visible(), clean) == RestoreAll(old(view.Visible()), vin, undos)
  {
    clean := true;
    var j := |vin|;
    assert vin[..j] == vin && undos[..j] == undos;
    while j > 0
      invariant 0 <= j <= |vin|
      invariant view.BaseVisible() == old(view.BaseVisible())
      invariant var (r, c) := RestoreAll(view.Visible(), vin[..j], undos[..j]);
                (r, c && clean) == RestoreAll(old(view.Visible()), vin, undos)
    {
      RestoreAllPrefix(view.Visible(), vin, undos, j);
      j := j - 1;
      var ok := UnspendInput(vin[j], undos[j], view);
      clean := clean && ok;
    }
  }

  /** Undo one transaction that is not the coinbase; refused when its undo data has the wrong length. */
  method UndoTransaction(tx: Transaction, undos: seq<TxInUndo>, nHeight: int, view: CoinsView)
    returns (fits: bool, clean: bool)
    requires view.Valid() && view.base != null
    modifies view.Repr`cacheCoins
    ensures view.BaseVisible() == old(view.BaseVisible())
    ensures fits <==> |undos| == |tx.vin|
    ensures fits ==> (view.Visible(), clean) == UndoTx(old(view.Visible()), tx, undos, nHeight)
  {
    clean := UncreateOutputs(tx, nHeight, view);
    fits := |undos| == |tx.vin|;
    if fits {
      var restored := UnspendInputs(tx.vin, undos, view);
      clean := clean && restored;
    }
  }

  /** The loop of DisconnectBlock over the transactions, last one first. */
  method UndoTransactions(vtx: seq<Transaction>, undos: seq<seq<TxInUndo>>, nHeight: int, view: CoinsView)
    returns (r: DisconnectResult)
    requires view.Valid() && view.base != null && vtx != [] && |undos| + 1 == |vtx|
    modifies view.Repr`cacheCoins
    ensures view.BaseVisible() == old(view.BaseVisible())
    ensures r.Done? <==> UndoTxs(old(view.Visible()), vtx, undos, nHeight).Undone?
    ensures r.Done? ==> UndoTxs(old(view.Visible()), vtx, undos, nHeight) == Undone(view.Visible(), r.clean)
  {
    ghost var goal := UndoTxs(view.Visible(), vtx, undos, nHeight);
    var clean := true;
    var i := |vtx|;
    assert vtx[..i] == vtx && undos[..i - 1] == undos;
    while i > 1
      invariant 1 <= i <= |vtx|
      invariant view.BaseVisible() == old(view.BaseVisible())
      invariant AlsoClean(UndoTxs(view.Visible(), vtx[..i], undos[..i - 1], nHeight), clean) == goal
    {
      UndoTxsPrefix(view.Visible(), vtx, undos, nHeight, i);
      i := i - 1;
      var fits, ok := UndoTransaction(vtx[i], undos[i - 1], nHeight, view);
      if !fits {
        return Failed("transaction and undo data inconsistent");
      }
      clean := clean && ok;
    }
    assert vtx[..1] == [vtx[0]];
    var ok := UncreateOutputs(vtx[0], nHeight, view);
    r := Done(clean && ok);
  }

  /** blockUndo is what reading the undo file gives, None when that fails. */
  method DisconnectBlock(block: Block, nHeight: int, hashPrev: Hash256, haveUndo: bool,
                         blockUndo: Option<seq<seq<TxInUndo>>>, view: CoinsView)
    returns (r: DisconnectResult)
    requires view.Valid() && view.base != null
    modifies view.Repr`cacheCoins, view`hashBlock
    ensures view.BaseVisible() == old(view.BaseVisible()) && view.BaseBestBlock() == old(view.BaseBestBlock())
    ensures r.Done? <==> && haveUndo && blockUndo.Some? && |blockUndo.value| + 1 == |block.vtx|
                         && UndoTxs(old(view.Visible()), block.vtx, blockUndo.value, nHeight).Undone?
    ensures r.Done? ==>
              UndoTxs(old(view.Visible()), block.vtx, blockUndo.value, nHeight) == Undone(view.Visible(), r.clean)
    ensures r.Done? ==> view.hashBlock == hashPrev
  {
    if !haveUndo {
      return Failed("no undo data available");
    }
    if blockUndo.None? {
      return Failed("failure reading undo data");
    }
    if |blockUndo.value| + 1 != |block.vtx| {
      return Failed("block and undo data inconsistent");
    }
    r := UndoTransactions(block.vtx, blockUndo.value, nHeight, view);
    if r.Done? {
      view.SetBestBlock(hashPrev);
    }
  }
}
