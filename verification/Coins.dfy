/**
 Transactions, transaction outputs and the record of the unspent outputs of one
 transaction (core.h, coins.h, coins.cpp).

 Transaction and block hashes are opaque identifiers, 0 being the null hash.
 Amounts are 64-bit and every addition the program makes wraps explicitly.
 */
module Coins {
  import opened VarInts

  const INT64_LIMIT: int := 0x8000_0000_0000_0000
  const UINT64_COUNT: int := 0x1_0000_0000_0000_0000

  type Int64 = x: int | -INT64_LIMIT <= x < INT64_LIMIT
  type Hash256 = nat
  type Script = seq<nat>

  const COIN: int := 100_000_000
  const OP_RETURN: nat := 0x6a
  const NULL_INDEX: nat := 0xFFFF_FFFF

  /** The product overflows 64 unsigned bits; this is the value the program compares with. */
  const MAX_MONEY: int := (500_000_000_000 * COIN) % UINT64_COUNT

  /** Two's complement truncation to 64 bits. */
  function WrapInt64(x: int): (r: Int64)
    ensures (x - r) % UINT64_COUNT == 0
    ensures -INT64_LIMIT <= x < INT64_LIMIT ==> r == x
  {
    var m := x % UINT64_COUNT;
    if m < INT64_LIMIT then m else m - UINT64_COUNT
  }

  predicate MoneyRange(v: Int64) {
    0 <= v <= MAX_MONEY
  }

  predicate IsUnspendable(s: Script) {
    |s| > 0 && s[0] == OP_RETURN
  }

  datatype TxOut = TxOut(nValue: Int64, script: Script) {
    predicate IsNull() {
      nValue == -1
    }
  }

  const NULL_OUT: TxOut := TxOut(-1, [])

  datatype OutPoint = OutPoint(hash: Hash256, n: nat) {
    predicate IsNull() {
      hash == 0 && n == NULL_INDEX
    }
  }

  /** Signatures and sequence numbers only reach the script oracle, so an input is its outpoint. */
  datatype Transaction = Transaction(txid: Hash256, nVersion: int, vin: seq<OutPoint>, vout: seq<TxOut>) {
    predicate IsCoinBase() {
      |vin| == 1 && vin[0].IsNull()
    }
  }

  /** CTxInUndo: the output spent and, when it was the last one, the metadata of its transaction. */
  datatype TxInUndo = TxInUndo(txout: TxOut, fCoinBase: bool, nHeight: int, nVersion: int) {
    /** Equal, up to a version that has been on disk. */
    predicate Shows(that: TxInUndo) {
      this == that || this == that.(nVersion := Kept(that.nVersion))
    }
  }

  datatype Coins = Coins(fCoinBase: bool, vout: seq<TxOut>, nHeight: int, nVersion: int) {
    predicate IsAvailable(n: nat) {
      n < |vout| && !vout[n].IsNull()
    }

    predicate IsPruned() {
      forall i :: 0 <= i < |vout| ==> vout[i].IsNull()
    }

    /** operator==: all fully spent records are equal. */
    predicate Same(that: Coins) {
      (IsPruned() && that.IsPruned()) || this == that
    }

    /** The same as operator== says, up to a version that has been on disk. */
    predicate Shows(that: Coins) {
      Same(that) || this == that.(nVersion := Kept(that.nVersion))
    }

    /** Spent outputs carry the null output and none is left at the end of the array. */
    predicate WellFormed() {
      && (forall i :: 0 <= i < |vout| && vout[i].IsNull() ==> vout[i] == NULL_OUT)
      && (|vout| > 0 ==> !vout[|vout| - 1].IsNull())
    }
  }

  const EMPTY_COINS: Coins := Coins(false, [], 0, 0)

  /** What Cleanup leaves: the shortest prefix after which every output is spent. */
  function Trimmed(vout: seq<TxOut>): (r: seq<TxOut>)
    ensures |r| <= |vout| && r == vout[..|r|]
    ensures forall i :: |r| <= i < |vout| ==> vout[i].IsNull()
    ensures |r| > 0 ==> !r[|r| - 1].IsNull()
  {
    if |vout| > 0 && vout[|vout| - 1].IsNull() then Trimmed(vout[..|vout| - 1]) else vout
  }

  method Cleanup(vout: seq<TxOut>) returns (r: seq<TxOut>)
    ensures r == Trimmed(vout)
  {
    r := vout;
    while |r| > 0 && r[|r| - 1].IsNull()
      invariant Trimmed(r) == Trimmed(vout)
    {
      r := r[..|r| - 1];
    }
  }

  function Cleared(vout: seq<TxOut>): (r: seq<TxOut>)
    ensures |r| == |vout|
    ensures forall i :: 0 <= i < |r| ==> r[i] == if IsUnspendable(vout[i].script) then NULL_OUT else vout[i]
  {
    seq(|vout|, i requires 0 <= i < |vout| => if IsUnspendable(vout[i].script) then NULL_OUT else vout[i])
  }

  method ClearUnspendable(vout: seq<TxOut>) returns (r: seq<TxOut>)
    ensures r == Trimmed(Cleared(vout))
  {
    r := vout;
    for i := 0 to |vout|
      invariant |r| == |vout|
      invariant r[..i] == Cleared(vout)[..i] && r[i..] == vout[i..]
    {
      if IsUnspendable(r[i].script) {
        r := r[i := NULL_OUT];
      }
    }
    assert r == Cleared(vout);
    r := Cleanup(r);
  }

  /** CCoins(tx, nHeight). */
  function FromTx(tx: Transaction, nHeight: int): Coins {
    Coins(tx.IsCoinBase(), Trimmed(Cleared(tx.vout)), nHeight, tx.nVersion)
  }

  lemma FromTxWellFormed(tx: Transaction, nHeight: int)
    requires forall i :: 0 <= i < |tx.vout| ==> !tx.vout[i].IsNull()
    ensures FromTx(tx, nHeight).WellFormed()
  {
    var vout := FromTx(tx, nHeight).vout;
    assert forall i :: 0 <= i < |vout| ==> vout[i] == Cleared(tx.vout)[i];
  }

  /** A record already cleared is unchanged by clearing it again. */
  lemma ClearIdempotent(tx: Transaction)
    ensures Trimmed(Cleared(FromTx(tx, 0).vout)) == FromTx(tx, 0).vout
  {
    var v := FromTx(tx, 0).vout;
    assert forall i :: 0 <= i < |v| ==> v[i] == Cleared(tx.vout)[i];
    assert Cleared(v) == v;
  }

  function Spent(c: Coins, n: nat): Coins
    requires c.IsAvailable(n)
  {
    c.(vout := Trimmed(c.vout[n := NULL_OUT]))
  }

  function SpendUndo(c: Coins, n: nat): TxInUndo
    requires c.IsAvailable(n)
  {
    if Spent(c, n).vout == [] then TxInUndo(c.vout[n], c.fCoinBase, c.nHeight, c.nVersion)
    else TxInUndo(c.vout[n], false, 0, 0)
  }

  /** CCoins::Spend. */
  method Spend(c: Coins, n: nat) returns (ok: bool, r: Coins, undo: TxInUndo)
    ensures ok <==> c.IsAvailable(n)
    ensures ok ==> r == Spent(c, n) && undo == SpendUndo(c, n)
    ensures !ok ==> r == c
  {
    undo := TxInUndo(NULL_OUT, false, 0, 0);
    if n >= |c.vout| {
      return false, c, undo;
    }
    if c.vout[n].IsNull() {
      return false, c, undo;
    }
    undo := TxInUndo(c.vout[n], false, 0, 0);
    var vout := Cleanup(c.vout[n := NULL_OUT]);
    r := c.(vout := vout);
    if |r.vout| == 0 {
      undo := undo.(nHeight := r.nHeight, fCoinBase := r.fCoinBase, nVersion := r.nVersion);
    }
    ok := true;
  }

  function Resized(vout: seq<TxOut>, size: nat): (r: seq<TxOut>)
    ensures |r| >= |vout| && |r| >= size && (|r| == |vout| || |r| == size)
    ensures forall i :: 0 <= i < |r| ==> r[i] == if i < |vout| then vout[i] else NULL_OUT
  {
    if |vout| < size then vout + seq(size - |vout|, i => NULL_OUT) else vout
  }

  /** One input restored by DisconnectBlock: the new record, and whether nothing was suspicious. */
  function RestoredOutput(coins: Coins, n: nat, undo: TxInUndo): (Coins, bool) {
    var last := undo.nHeight != 0;
    var c := if last then Coins(undo.fCoinBase, [], undo.nHeight, undo.nVersion) else coins;
    var vout := Resized(c.vout, n + 1);
    (c.(vout := vout[n := undo.txout]), coins.IsPruned() == last && !c.IsAvailable(n))
  }

  lemma SpentAt(c: Coins, n: nat, m: nat)
    requires c.IsAvailable(n)
    ensures Spent(c, n).IsAvailable(m) <==> m != n && c.IsAvailable(m)
    ensures Spent(c, n).IsAvailable(m) ==> Spent(c, n).vout[m] == c.vout[m]
  {
    var v := c.vout[n := NULL_OUT];
    var s := Spent(c, n).vout;
    if m < |s| {
      assert s[m] == v[m];
    } else if m < |v| {
      assert v[m].IsNull();
    }
  }

  /** Spending loses exactly the output spent. */
  lemma SpentProperties(c: Coins, n: nat)
    requires c.IsAvailable(n)
    ensures forall m: nat :: Spent(c, n).IsAvailable(m) <==> m != n && c.IsAvailable(m)
    ensures forall m: nat :: Spent(c, n).IsAvailable(m) ==> Spent(c, n).vout[m] == c.vout[m]
    ensures Spent(c, n).IsPruned() <==> Spent(c, n).vout == []
    ensures Spent(c, n) == c.(vout := Spent(c, n).vout)
  {
    forall m: nat
      ensures Spent(c, n).IsAvailable(m) <==> m != n && c.IsAvailable(m)
      ensures Spent(c, n).IsAvailable(m) ==> Spent(c, n).vout[m] == c.vout[m]
    {
      SpentAt(c, n, m);
    }
    var s := Spent(c, n).vout;
    if s != [] {
      assert !s[|s| - 1].IsNull();
    }
  }

  lemma {:induction false} SpentWellFormed(c: Coins, n: nat)
    requires c.WellFormed() && c.IsAvailable(n)
    ensures Spent(c, n).WellFormed()
  {
    var v := c.vout[n := NULL_OUT];
    var s := Trimmed(v);
    forall i | 0 <= i < |s| && s[i].IsNull() ensures s[i] == NULL_OUT {
      assert s[i] == v[i];
      assert v[i] == if i == n then NULL_OUT else c.vout[i];
    }
  }

  /** Records that show the same one lose the same output. */
  lemma SpentShows(seen: Coins, c: Coins, n: nat)
    requires seen.Shows(c)
    ensures seen.IsAvailable(n) <==> c.IsAvailable(n)
    ensures c.IsAvailable(n) ==> seen.vout == c.vout && seen.fCoinBase == c.fCoinBase && seen.nHeight == c.nHeight
    ensures c.IsAvailable(n) ==> Spent(seen, n).Shows(Spent(c, n)) && SpendUndo(seen, n).Shows(SpendUndo(c, n))
  {
  }

  /**
   Restoring from the undo data gives back the record before the spend; only
   its version may be the one that comes back from disk.
   */
  lemma SpendRestored(c: Coins, n: nat, seen: Coins, undo: TxInUndo)
    requires c.WellFormed() && c.IsAvailable(n) && c.nHeight > 0
    requires seen.Shows(Spent(c, n)) && undo.Shows(SpendUndo(c, n))
    ensures RestoredOutput(seen, n, undo).1 && RestoredOutput(seen, n, undo).0.Shows(c)
  {
    SpentProperties(c, n);
    var s := Spent(c, n).vout;
    var v := c.vout[n := NULL_OUT];
    var got := RestoredOutput(seen, n, undo).0.vout;
    assert s == v[..|s|];
    assert c.IsAvailable(|c.vout| - 1);
    if s == [] {
      assert n == |c.vout| - 1;
    } else {
      assert seen.vout == s;
      assert n < |c.vout| - 1 ==> Spent(c, n).IsAvailable(|c.vout| - 1);
    }
    assert |got| == |c.vout|;
    forall i | 0 <= i < |got| ensures got[i] == c.vout[i] {
      if i != n && i < |s| {
        assert s[i] == v[i];
      }
    }
    assert got == c.vout;
  }

  // ----- value -----

  function OutputSum(vout: seq<TxOut>): int {
    if vout == [] then 0 else OutputSum(vout[..|vout| - 1]) + vout[|vout| - 1].nValue
  }

  /** What the unspent outputs of the record are worth. */
  function Value(vout: seq<TxOut>): int {
    if vout == [] then 0
    else Value(vout[..|vout| - 1]) + (if vout[|vout| - 1].IsNull() then 0 else vout[|vout| - 1].nValue)
  }

  /** What a transaction sends to outputs that can never be spent. */
  function UnspendableSum(vout: seq<TxOut>): int {
    if vout == [] then 0
    else UnspendableSum(vout[..|vout| - 1]) +
         (if IsUnspendable(vout[|vout| - 1].script) then vout[|vout| - 1].nValue else 0)
  }

  lemma {:induction false} ValueTrimmed(vout: seq<TxOut>)
    ensures Value(Trimmed(vout)) == Value(vout)
  {
    if |vout| > 0 && vout[|vout| - 1].IsNull() {
      ValueTrimmed(vout[..|vout| - 1]);
    }
  }

  lemma {:induction false} ValueUpdate(vout: seq<TxOut>, n: nat, o: TxOut)
    requires n < |vout|
    ensures Value(vout[n := o]) ==
            Value(vout) - (if vout[n].IsNull() then 0 else vout[n].nValue) + (if o.IsNull() then 0 else o.nValue)
  {
    var last := |vout| - 1;
    if n == last {
      assert vout[n := o][..last] == vout[..last];
    } else {
      assert vout[n := o][..last] == vout[..last][n := o];
      ValueUpdate(vout[..last], n, o);
    }
  }

  /** A new record is worth the outputs of its transaction minus the unspendable ones. */
  lemma {:induction false} ValueCleared(vout: seq<TxOut>)
    requires forall i :: 0 <= i < |vout| ==> !vout[i].IsNull()
    ensures Value(Cleared(vout)) == OutputSum(vout) - UnspendableSum(vout)
  {
    if vout != [] {
      var last := |vout| - 1;
      assert Cleared(vout)[..last] == Cleared(vout[..last]);
      ValueCleared(vout[..last]);
    }
  }

  lemma {:induction false} OutputSumNonNegative(vout: seq<TxOut>)
    requires forall i :: 0 <= i < |vout| ==> vout[i].nValue >= 0
    ensures OutputSum(vout) >= UnspendableSum(vout) >= 0
  {
    if vout != [] {
      OutputSumNonNegative(vout[..|vout| - 1]);
    }
  }
}
