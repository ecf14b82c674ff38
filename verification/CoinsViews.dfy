/**
 Stacked views of the unspent outputs (coins.cpp: CCoinsViewCache; txdb.cpp:
 CCoinsViewDB).  A view without a base is the store at the bottom, which
 erases fully spent records and holds the others in their stored form; a view
 with a base is a cache over it.

 A stack of any depth is one overlaid map: Visible().
 */
module CoinsViews {
  import opened Coins
  import opened Utxo
  import opened DiskForm

  /** What the store holds after a batch: fully spent records are erased, others are written. */
  function Stored(u: UtxoSet, batch: UtxoSet): (r: UtxoSet)
    ensures forall t :: t in r <==> if t in batch then !batch[t].IsPruned() else t in u
    ensures forall t :: t in r ==> r[t] == if t in batch then DiskCopy(batch[t]) else u[t]
  {
    map t | t in u.Keys + batch.Keys && !(t in batch && batch[t].IsPruned()) ::
      if t in batch then DiskCopy(batch[t]) else u[t]
  }

  /** The store shows the batch written exactly if every record of it lasts. */
  lemma StoredShows(u: UtxoSet, batch: UtxoSet)
    ensures ViewOf(Stored(u, batch), u + batch) <==> forall t :: t in batch ==> Lasting(batch[t])
    ensures SameView(Stored(u, batch), u + batch) <==>
            forall t :: t in batch ==> Lasting(batch[t]) && (batch[t].IsPruned() || batch[t].nVersion >= 0)
  {
    var r := Stored(u, batch);
    forall t | t in batch
      ensures Lookup(r, t).Shows(Lookup(u + batch, t)) <==> Lasting(batch[t])
      ensures Lookup(r, t).Same(Lookup(u + batch, t)) <==>
              Lasting(batch[t]) && (batch[t].IsPruned() || batch[t].nVersion >= 0)
    {
      assert (u + batch)[t] == batch[t];
      if !batch[t].IsPruned() {
        DiskCopyShows(batch[t]);
      }
    }
    assert forall t: Hash256 :: t !in batch ==> Lookup(r, t) == Lookup(u + batch, t);
  }

  /** What a layer holds after a batch. */
  function Batched(u: UtxoSet, batch: UtxoSet, store: bool): UtxoSet {
    if store then Stored(u, batch) else u + batch
  }

  lemma BatchNothing(u: UtxoSet, store: bool)
    ensures Batched(u, map[], store) == u
  {
  }

  lemma SameMaps(u: UtxoSet, w: UtxoSet)
    requires forall t: Hash256 :: t in u <==> t in w
    requires forall t :: t in u ==> u[t] == w[t]
    ensures u == w
  {
  }

  lemma StoreErased(u: UtxoSet, batch: UtxoSet, t: Hash256, c: Coins)
    requires c.IsPruned()
    ensures Stored(u, batch[t := c]) == Stored(u, batch) - {t}
  {
    SameMaps(Stored(u, batch[t := c]), Stored(u, batch) - {t});
  }

  lemma StoreWritten(u: UtxoSet, batch: UtxoSet, t: Hash256, c: Coins)
    requires !c.IsPruned()
    ensures Stored(u, batch[t := c]) == Stored(u, batch)[t := DiskCopy(c)]
  {
    SameMaps(Stored(u, batch[t := c]), Stored(u, batch)[t := DiskCopy(c)]);
  }

  lemma BatchOne(u: UtxoSet, batch: UtxoSet, t: Hash256, c: Coins, store: bool)
    ensures Batched(u, batch[t := c], store) ==
            if !store then Batched(u, batch, store)[t := c]
            else if c.IsPruned() then Batched(u, batch, store) - {t}
            else Batched(u, batch, store)[t := DiskCopy(c)]
  {
    if store {
      if c.IsPruned() {
        StoreErased(u, batch, t, c);
      } else {
        StoreWritten(u, batch, t, c);
      }
    } else {
      assert u + batch[t := c] == (u + batch)[t := c];
    }
  }

  class CoinsView {
    var cacheCoins: UtxoSet
    var hashBlock: Hash256
    const base: CoinsView?
    ghost const Repr: set<CoinsView>

    ghost predicate Valid()
      decreases Repr
    {
      && this in Repr
      && (base == null ==> Repr == {this})
      && (base != null ==> this !in base.Repr && Repr == {this} + base.Repr && base.Valid())
    }

    /** The contents every read is answered from. */
    ghost function Visible(): UtxoSet
      requires Valid()
      reads Repr`cacheCoins
      decreases Repr
    {
      if base == null then cacheCoins else base.Visible() + cacheCoins
    }

    /** The first layer with a best block decides. */
    ghost function BestBlock(): Hash256
      requires Valid()
      reads Repr`hashBlock
      decreases Repr
    {
      if base == null || hashBlock != 0 then hashBlock else base.BestBlock()
    }

    ghost function BaseVisible(): UtxoSet
      requires Valid()
      reads Repr`cacheCoins
    {
      if base == null then map[] else base.Visible()
    }

    ghost function BaseBestBlock(): Hash256
      requires Valid()
      reads Repr`hashBlock
    {
      if base == null then 0 else base.BestBlock()
    }

    constructor Store()
      ensures Valid() && base == null && Repr == {this}
      ensures Visible() == map[] && BestBlock() == 0
    {
      cacheCoins, hashBlock, base, Repr := map[], 0, null, {this};
    }

    constructor Over(view: CoinsView)
      requires view.Valid()
      ensures Valid() && base == view && Repr == {this} + view.Repr && fresh(this)
      ensures cacheCoins == map[] && hashBlock == 0
      ensures Visible() == view.Visible() && BestBlock() == view.BestBlock()
    {
      cacheCoins, hashBlock, base, Repr := map[], 0, view, {this} + view.Repr;
    }

    /** GetCoins and FetchCoins: a miss fills the caches on the way, which nobody can see. */
    method GetCoins(txid: Hash256) returns (found: bool, coins: Coins)
      requires Valid()
      modifies Repr`cacheCoins
      ensures Visible() == old(Visible()) && BaseVisible() == old(BaseVisible())
      ensures found <==> txid in Visible()
      ensures coins == Lookup(Visible(), txid)
      decreases Repr
    {
      if txid in cacheCoins {
        return true, cacheCoins[txid];
      }
      if base == null {
        return false, EMPTY_COINS;
      }
      found, coins := base.GetCoins(txid);
      if found {
        cacheCoins := cacheCoins[txid := coins];
        assert base.Visible() + cacheCoins == old(Visible());
      }
    }

    method HaveCoins(txid: Hash256) returns (found: bool)
      requires Valid()
      modifies Repr`cacheCoins
      ensures Visible() == old(Visible()) && BaseVisible() == old(BaseVisible())
      ensures found <==> txid in Visible()
    {
      var coins;
      found, coins := GetCoins(txid);
    }

    /** Writes reach the top layer only. */
    method SetCoins(txid: Hash256, coins: Coins)
      requires Valid() && base != null
      modifies this`cacheCoins
      ensures Visible() == old(Visible())[txid := coins] && BaseVisible() == old(BaseVisible())
    {
      cacheCoins := cacheCoins[txid := coins];
      assert base.Visible() + cacheCoins == old(Visible())[txid := coins];
    }

    method GetBestBlock() returns (hash: Hash256)
      requires Valid()
      modifies Repr`hashBlock
      ensures BestBlock() == old(BestBlock()) == hash && BaseBestBlock() == old(BaseBestBlock())
      decreases Repr
    {
      if base != null && hashBlock == 0 {
        hashBlock := base.GetBestBlock();
      }
      hash := hashBlock;
    }

    method SetBestBlock(hash: Hash256)
      requires Valid()
      modifies this`hashBlock
      ensures hashBlock == hash
      ensures hash != 0 ==> BestBlock() == hash
      ensures BaseBestBlock() == old(BaseBestBlock())
    {
      hashBlock := hash;
    }

    method BatchWrite(mapCoins: UtxoSet, hash: Hash256)
      requires Valid()
      modifies this
      ensures cacheCoins == Batched(old(cacheCoins), mapCoins, base == null)
      ensures hashBlock == if base == null && hash == 0 then old(hashBlock) else hash
    {
      var todo := mapCoins.Keys;
      ghost var was, done: UtxoSet := cacheCoins, map[];
      BatchNothing(was, base == null);
      while todo != {}
        invariant todo <= mapCoins.Keys && done.Keys == mapCoins.Keys - todo
        invariant hashBlock == old(hashBlock)
        invariant forall t :: t in done ==> done[t] == mapCoins[t]
        invariant cacheCoins == Batched(was, done, base == null)
      {
        var t :| t in todo;
        todo := todo - {t};
        BatchOne(was, done, t, mapCoins[t], base == null);
        done := done[t := mapCoins[t]];
        if base == null {
          if mapCoins[t].IsPruned() {
            cacheCoins := cacheCoins - {t};
          } else {
            cacheCoins := cacheCoins[t := DiskCopy(mapCoins[t])];
          }
        } else {
          cacheCoins := cacheCoins[t := mapCoins[t]];
        }
      }
      assert done == mapCoins;
      if base != null || hash != 0 {
        hashBlock := hash;
      }
    }

    /**
     Flushing changes no visible record when the base is a cache; when the base
     is the store, StoredShows says what changes.  The base then shows what
     this layer shows.  The best block survives exactly when this layer has
     one, or the base has none of its own to lose.
     */
    method Flush()
      requires Valid() && base != null
      modifies Repr
      ensures cacheCoins == map[] && hashBlock == old(hashBlock)
      ensures Visible() == base.Visible()
      ensures Visible() == if base.base != null then old(Visible()) else Stored(old(base.Visible()), old(cacheCoins))
      ensures hashBlock != 0 ==> base.BestBlock() == hashBlock
      ensures BestBlock() == old(BestBlock()) <==>
              || hashBlock != 0 || base.base == null || old(base.hashBlock) == 0
              || old(base.hashBlock) == old(base.base.BestBlock())
    {
      ghost var below := base.base;
      ghost var belowVisible := if below == null then map[] else below.Visible();
      ghost var belowBest := if below == null then 0 else below.BestBlock();
      base.BatchWrite(cacheCoins, hashBlock);
      if below != null {
        assert below.Visible() == belowVisible && below.BestBlock() == belowBest;
        assert base.Visible() == belowVisible + (old(base.cacheCoins) + old(cacheCoins));
        assert belowVisible + (old(base.cacheCoins) + old(cacheCoins)) == old(base.Visible()) + old(cacheCoins);
      }
      cacheCoins := map[];
      assert base.Visible() + map[] == base.Visible();
    }

    /** First every record must exist, then every output must be unspent. */
    method HaveInputs(tx: Transaction) returns (r: bool)
      requires Valid()
      modifies Repr`cacheCoins
      ensures Visible() == old(Visible()) && BaseVisible() == old(BaseVisible())
      ensures r <==> tx.IsCoinBase() || Utxo.HaveInputs(Visible(), tx.vin)
    {
      if !tx.IsCoinBase() {
        for i := 0 to |tx.vin|
          invariant Visible() == old(Visible()) && BaseVisible() == old(BaseVisible())
          invariant forall k :: 0 <= k < i ==> tx.vin[k].hash in Visible()
        {
          var have := HaveCoins(tx.vin[i].hash);
          if !have {
            assert !Available(Visible(), tx.vin[i]);
            return false;
          }
        }
        for i := 0 to |tx.vin|
          invariant Visible() == old(Visible()) && BaseVisible() == old(BaseVisible())
          invariant forall k :: 0 <= k < i ==> Available(Visible(), tx.vin[k])
        {
          var _, coins := GetCoins(tx.vin[i].hash);
          if !coins.IsAvailable(tx.vin[i].n) {
            assert !Available(Visible(), tx.vin[i]);
            return false;
          }
        }
      }
      r := true;
    }

    /** The sum wraps; CheckInputs later refuses the transactions for which it did. */
    method GetValueIn(tx: Transaction) returns (nResult: Int64)
      requires Valid() && (tx.IsCoinBase() || Utxo.HaveInputs(Visible(), tx.vin))
      modifies Repr`cacheCoins
      ensures Visible() == old(Visible()) && BaseVisible() == old(BaseVisible())
      ensures nResult == if tx.IsCoinBase() then 0 else WrapInt64(InputSum(Visible(), tx.vin))
    {
      if tx.IsCoinBase() {
        return 0;
      }
      nResult := 0;
      for i := 0 to |tx.vin|
        invariant Visible() == old(Visible()) && BaseVisible() == old(BaseVisible())
        invariant nResult == WrapInt64(InputSum(Visible(), tx.vin[..i]))
      {
        var _, coins := GetCoins(tx.vin[i].hash);
        assert Available(Visible(), tx.vin[i]);
        assert tx.vin[..i + 1][..i] == tx.vin[..i];
        WrapAdd(InputSum(Visible(), tx.vin[..i]), coins.vout[tx.vin[i].n].nValue);
        nResult := WrapInt64(nResult + coins.vout[tx.vin[i].n].nValue);
      }
      assert tx.vin[..|tx.vin|] == tx.vin;
    }
  }

  lemma WrapAdd(a: int, b: int)
    ensures WrapInt64(WrapInt64(a) + b) == WrapInt64(a + b)
  {
    var r := WrapInt64(a);
    var k := (a - r) / UINT64_COUNT;
    assert a + b == r + b + k * UINT64_COUNT;
    MultipleAdded(r + b, k);
  }

  lemma MultipleAdded(x: int, k: int)
    ensures (x + k * UINT64_COUNT) % UINT64_COUNT == x % UINT64_COUNT
  {
  }
}
