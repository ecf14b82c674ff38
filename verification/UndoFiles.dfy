/**
 Undo data on disk (main.h: CBlockUndo WriteToDisk and ReadFromDisk): it is
 followed by a checksum, and reading writes what was read once more to compare.
 The hash is a parameter.
 */
module UndoFiles {
  import opened Coins
  import opened Utxo
  import opened DiskForm
  import opened Options
  import opened VarInts
  import CoinsCodec

  type BlockTokens = seq<seq<seq<CoinsCodec.Token>>>
  type HashFunction = (Hash256, BlockTokens) -> nat

  datatype UndoFile = UndoFile(written: seq<seq<TxInUndo>>, hashChecksum: nat)

  /** What reading the undo data of one transaction gives. */
  function AsRead(undos: seq<TxInUndo>): (r: seq<TxInUndo>)
    ensures |r| == |undos| && forall i :: 0 <= i < |undos| ==> r[i] == DiskUndo(undos[i])
  {
    seq(|undos|, i requires 0 <= i < |undos| => DiskUndo(undos[i]))
  }

  function BlockAsRead(undos: seq<seq<TxInUndo>>): (r: seq<seq<TxInUndo>>)
    ensures |r| == |undos| && forall i :: 0 <= i < |undos| ==> r[i] == AsRead(undos[i])
  {
    seq(|undos|, i requires 0 <= i < |undos| => AsRead(undos[i]))
  }

  function Tokens(undos: seq<TxInUndo>): (r: seq<seq<CoinsCodec.Token>>)
    ensures |r| == |undos| && forall i :: 0 <= i < |undos| ==> r[i] == CoinsCodec.WrittenUndo(undos[i])
  {
    seq(|undos|, i requires 0 <= i < |undos| => CoinsCodec.WrittenUndo(undos[i]))
  }

  function TokensOf(undos: seq<seq<TxInUndo>>): (r: BlockTokens)
    ensures |r| == |undos| && forall i :: 0 <= i < |undos| ==> r[i] == Tokens(undos[i])
  {
    seq(|undos|, i requires 0 <= i < |undos| => Tokens(undos[i]))
  }

  function WriteToDisk(undos: seq<seq<TxInUndo>>, hashPrev: Hash256, hasher: HashFunction): UndoFile {
    UndoFile(undos, hasher(hashPrev, TokensOf(undos)))
  }

  /** None when the checksum does not match. */
  function ReadFromDisk(file: UndoFile, hashPrev: Hash256, hasher: HashFunction): Option<seq<seq<TxInUndo>>> {
    var undos := BlockAsRead(file.written);
    if hasher(hashPrev, TokensOf(undos)) != file.hashChecksum then None else Some(undos)
  }

  /** Undo data as spending makes it, with a storable amount. */
  predicate LastingUndo(u: TxInUndo) {
    (u.nHeight > 0 || (u.nHeight == 0 && u.nVersion == 0)) && Storable(u.txout)
  }

  ghost predicate AllLasting(undos: seq<seq<TxInUndo>>) {
    forall i, j :: 0 <= i < |undos| && 0 <= j < |undos[i]| ==> LastingUndo(undos[i][j])
  }

  lemma {:induction false} LastingUndoRead(u: TxInUndo, exact: TxInUndo)
    requires LastingUndo(exact) && u.Shows(exact)
    ensures DiskUndo(u).Shows(exact) && CoinsCodec.WrittenUndo(DiskUndo(u)) == CoinsCodec.WrittenUndo(u)
  {
    DiskUndoShows(u, exact);
    DiskOutExact(u.txout);
    assert DiskUndo(u) == u || DiskUndo(u) == u.(nVersion := Kept(u.nVersion));
  }

  lemma {:induction false} UndosRead(undos: seq<TxInUndo>, exact: seq<TxInUndo>)
    requires UndosShow(undos, exact) && forall i :: 0 <= i < |exact| ==> LastingUndo(exact[i])
    ensures UndosShow(AsRead(undos), exact) && Tokens(AsRead(undos)) == Tokens(undos)
  {
    forall i | 0 <= i < |undos|
      ensures AsRead(undos)[i].Shows(exact[i]) && Tokens(AsRead(undos))[i] == Tokens(undos)[i]
    {
      LastingUndoRead(undos[i], exact[i]);
    }
  }

  /** Undo data with storable amounts passes the checksum and still shows what it did, whatever the hash. */
  lemma {:induction false} UndoFileRead(undos: seq<seq<TxInUndo>>, exact: seq<seq<TxInUndo>>, hashPrev: Hash256,
                                        hasher: HashFunction)
    requires BlockUndoShows(undos, exact) && AllLasting(exact)
    ensures var r := ReadFromDisk(WriteToDisk(undos, hashPrev, hasher), hashPrev, hasher);
            r.Some? && BlockUndoShows(r.value, exact)
  {
    var data := BlockAsRead(undos);
    forall i | 0 <= i < |undos|
      ensures UndosShow(data[i], exact[i]) && TokensOf(data)[i] == TokensOf(undos)[i]
    {
      UndosRead(undos[i], exact[i]);
    }
    assert TokensOf(data) == TokensOf(undos);
  }
}
