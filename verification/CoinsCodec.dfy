/**
 The stored form of the unspent outputs of a transaction (coins.h: CCoins
 Serialize and Unserialize, coins.cpp: CalcMaskSize) and of undo data
 (core.h: CTxInUndo).

 A stream is a list of tokens: variable-length numbers (module VarInts has
 their bytes), single bytes, and compressed outputs; the bytes of scripts are
 not part of this model.
 Main results: ReadsAs, RoundTripExactly and UndoReadsAs.
 */
module CoinsCodec {
  import opened Coins
  import opened DiskForm
  import opened Amounts
  import opened VarInts
  import opened Options
  import opened Powers

  datatype Token = Varint(n: nat) | Byte(bits: nat) | Out(amount: nat, script: Script)

  // ----- bytes -----

  /** The number with these bits, the least significant first. */
  function ByteOf(bits: seq<bool>): nat {
    if bits == [] then 0 else (if bits[0] then 1 else 0) + 2 * ByteOf(bits[1..])
  }

  predicate BitOf(b: nat, i: nat)
    decreases i
  {
    if i == 0 then b % 2 == 1 else BitOf(b / 2, i - 1)
  }

  function BitsOf(b: nat): (r: seq<bool>)
    ensures |r| == 8 && forall i :: 0 <= i < 8 ==> r[i] == BitOf(b, i)
  {
    seq(8, i requires 0 <= i => BitOf(b, i))
  }

  lemma HalfOfByte(bits: seq<bool>)
    requires bits != []
    ensures ByteOf(bits) % 2 == (if bits[0] then 1 else 0) && ByteOf(bits) / 2 == ByteOf(bits[1..])
  {
  }

  lemma {:induction false} BitOfByte(bits: seq<bool>, i: nat)
    requires i < |bits|
    ensures BitOf(ByteOf(bits), i) == bits[i]
    decreases i
  {
    HalfOfByte(bits);
    if i > 0 {
      var half := ByteOf(bits) / 2;
      BitOfByte(bits[1..], i - 1);
      assert BitOf(ByteOf(bits), i) == BitOf(half, i - 1);
    }
  }

  lemma {:induction false} ByteIsZero(bits: seq<bool>)
    ensures ByteOf(bits) == 0 <==> forall i :: 0 <= i < |bits| ==> !bits[i]
    decreases |bits|
  {
    if bits != [] {
      ByteIsZero(bits[1..]);
      assert forall i :: 1 <= i < |bits| ==> bits[i] == bits[1..][i - 1];
    }
  }

  lemma BitsOfByte(bits: seq<bool>)
    requires |bits| == 8
    ensures BitsOf(ByteOf(bits)) == bits
  {
    forall i | 0 <= i < 8 ensures BitOf(ByteOf(bits), i) == bits[i] {
      BitOfByte(bits, i);
    }
  }

  // ----- the mask -----

  /** Is output i unspent? */
  predicate Avail(vout: seq<TxOut>, i: nat) {
    i < |vout| && !vout[i].IsNull()
  }

  /** Byte b of the mask covers eight outputs after the first two. */
  function MaskBits(vout: seq<TxOut>, b: nat): (r: seq<bool>)
    ensures |r| == 8 && forall i :: 0 <= i < 8 ==> r[i] == Avail(vout, 2 + b * 8 + i)
  {
    seq(8, i requires 0 <= i => Avail(vout, 2 + b * 8 + i))
  }

  predicate Nonzero(vout: seq<TxOut>, b: nat) {
    exists i :: 0 <= i < 8 && MaskBits(vout, b)[i]
  }

  /** The number of bytes up to the last one that is not zero, among the first b. */
  function LastUsed(vout: seq<TxOut>, b: nat): nat {
    if b == 0 then 0 else if Nonzero(vout, b - 1) then b else LastUsed(vout, b - 1)
  }

  function NonzeroCount(vout: seq<TxOut>, b: nat): nat {
    if b == 0 then 0 else NonzeroCount(vout, b - 1) + (if Nonzero(vout, b - 1) then 1 else 0)
  }

  /** How many bytes it takes to cover all outputs. */
  function Bytes(vout: seq<TxOut>): (n: nat)
    ensures n == 0 <==> |vout| <= 2
    ensures n > 0 ==> 2 + (n - 1) * 8 < |vout| <= 2 + n * 8
  {
    if |vout| <= 2 then 0 else (|vout| - 2 + 7) / 8
  }

  method CalcMaskSize(vout: seq<TxOut>) returns (nBytes: nat, nNonzeroBytes: nat)
    ensures nBytes == LastUsed(vout, Bytes(vout)) && nNonzeroBytes == NonzeroCount(vout, Bytes(vout))
  {
    var nLastUsedByte := 0;
    nNonzeroBytes := 0;
    var b := 0;
    while 2 + b * 8 < |vout|
      invariant b <= Bytes(vout)
      invariant nLastUsedByte == LastUsed(vout, b) && nNonzeroBytes == NonzeroCount(vout, b)
      decreases |vout| - b
    {
      ghost var bits := MaskBits(vout, b);
      var fZero := true;
      var i := 0;
      while i < 8 && 2 + b * 8 + i < |vout|
        invariant 0 <= i <= 8
        invariant fZero <==> forall k :: 0 <= k < i ==> !bits[k]
      {
        assert bits[i] == Avail(vout, 2 + b * 8 + i);
        if !vout[2 + b * 8 + i].IsNull() {
          fZero := false;
        }
        i := i + 1;
      }
      assert fZero <==> !Nonzero(vout, b);
      if !fZero {
        nLastUsedByte := b + 1;
        nNonzeroBytes := nNonzeroBytes + 1;
      }
      b := b + 1;
    }
    nBytes := nLastUsedByte;
  }

  /** Nothing is unspent beyond the last byte in use, and it is in use. */
  lemma {:induction false} LastUsedProperties(vout: seq<TxOut>, b: nat)
    ensures var last := LastUsed(vout, b);
            && last <= b && (last > 0 ==> Nonzero(vout, last - 1)) && NonzeroCount(vout, last) == NonzeroCount(vout, b)
            && forall k :: last <= k < b ==> !Nonzero(vout, k)
  {
    if b > 0 && !Nonzero(vout, b - 1) {
      LastUsedProperties(vout, b - 1);
    }
  }

  /** The outputs that the mask written covers. */
  function Covered(vout: seq<TxOut>): nat {
    2 + LastUsed(vout, Bytes(vout)) * 8
  }

  lemma CoversAll(vout: seq<TxOut>, i: nat)
    requires i >= Covered(vout)
    ensures !Avail(vout, i)
  {
    LastUsedProperties(vout, Bytes(vout));
    var b := (i - 2) / 8;
    if i < |vout| {
      assert !Nonzero(vout, b);
      assert MaskBits(vout, b)[(i - 2) % 8] == Avail(vout, 2 + b * 8 + (i - 2) % 8);
    }
  }

  lemma {:induction false} CountGrows(vout: seq<TxOut>, a: nat, b: nat)
    requires a <= b
    ensures NonzeroCount(vout, a) <= NonzeroCount(vout, b)
    decreases b
  {
    if a < b {
      CountGrows(vout, a, b - 1);
    }
  }

  // ----- writing -----

  function MaskTokens(vout: seq<TxOut>, lo: nat, hi: nat): seq<Token>
    decreases hi - lo
  {
    if lo >= hi then [] else [Byte(ByteOf(MaskBits(vout, lo)))] + MaskTokens(vout, lo + 1, hi)
  }

  /** CTxOutCompressor */
  function Compress(o: TxOut): Token {
    Out(Cut(Compressed(o.nValue % WORD64)), o.script)
  }

  function Decompress(t: Token): TxOut
    requires t.Out?
  {
    TxOut(WrapInt64(Cut(Decompressed(t.amount))), t.script)
  }

  function OutTokens(vout: seq<TxOut>, i: nat): seq<Token>
    decreases |vout| - i
  {
    if i >= |vout| then [] else (if vout[i].IsNull() then [] else [Compress(vout[i])]) + OutTokens(vout, i + 1)
  }

  /** The subtraction never goes below zero; that is the assertion of the program. */
  function HeaderCode(c: Coins): nat
    requires !c.IsPruned()
  {
    SomethingToWrite(c);
    var first, second := Avail(c.vout, 0), Avail(c.vout, 1);
    8 * (NonzeroCount(c.vout, Bytes(c.vout)) - (if first || second then 0 else 1)) +
    (if c.fCoinBase then 1 else 0) + (if first then 2 else 0) + (if second then 4 else 0)
  }

  function Written(c: Coins): seq<Token>
    requires !c.IsPruned()
  {
    [Varint(Kept(c.nVersion)), Varint(HeaderCode(c))] +
    (MaskTokens(c.vout, 0, LastUsed(c.vout, Bytes(c.vout))) + (OutTokens(c.vout, 0) + [Varint(Kept(c.nHeight))]))
  }

  /** An unspent output is either among the first two or in the mask. */
  lemma SomethingToWrite(c: Coins)
    requires !c.IsPruned()
    ensures Avail(c.vout, 0) || Avail(c.vout, 1) || NonzeroCount(c.vout, Bytes(c.vout)) > 0
  {
    var k :| 0 <= k < |c.vout| && !c.vout[k].IsNull();
    if k >= 2 {
      var b := (k - 2) / 8;
      assert MaskBits(c.vout, b)[(k - 2) % 8];
      CountGrows(c.vout, b + 1, Bytes(c.vout));
    }
  }

  // ----- reading -----

  /** The mask bytes, until as many that are not zero have been read as the header announced. */
  function ReadMask(s: seq<Token>, nMaskCode: int, vAvail: seq<bool>): Option<(seq<bool>, seq<Token>)>
    decreases |s|
  {
    if nMaskCode <= 0 then Some((vAvail, s))
    else if s == [] || !s[0].Byte? then None
    else ReadMask(s[1..], if s[0].bits != 0 then nMaskCode - 1 else nMaskCode, vAvail + BitsOf(s[0].bits))
  }

  /** The outputs from place i on; those not available are null. */
  function ReadOuts(s: seq<Token>, vAvail: seq<bool>, i: nat): Option<(seq<TxOut>, seq<Token>)>
    decreases |vAvail| - i
  {
    if i >= |vAvail| then Some(([], s))
    else if vAvail[i] && (s == [] || !s[0].Out?) then None
    else
      var more := ReadOuts(if vAvail[i] then s[1..] else s, vAvail, i + 1);
      if more.None? then None
      else Some(([if vAvail[i] then Decompress(s[0]) else NULL_OUT] + more.value.0, more.value.1))
  }

  function MaskCode(code: int): int {
    code / 8 + (if code / 2 % 4 != 0 then 0 else 1)
  }

  function ReadCoins(s: seq<Token>): Option<(Coins, seq<Token>)> {
    if |s| < 2 || !s[0].Varint? || !s[1].Varint? then None
    else
      var code := s[1].n;
      var mask := ReadMask(s[2..], MaskCode(code), [code / 2 % 2 == 1, code / 4 % 2 == 1]);
      if mask.None? then None
      else
        var outs := ReadOuts(mask.value.1, mask.value.0, 0);
        if outs.None? || outs.value.1 == [] || !outs.value.1[0].Varint? then None
        else Some((Coins(code % 2 == 1, Trimmed(outs.value.0), outs.value.1[0].n, s[0].n), outs.value.1[1..]))
  }

  // ----- reading back what was written -----

  function AvailBits(vout: seq<TxOut>, lo: nat, hi: nat): seq<bool>
    decreases hi - lo
  {
    if lo >= hi then [] else MaskBits(vout, lo) + AvailBits(vout, lo + 1, hi)
  }

  lemma {:induction false} AvailBitsAt(vout: seq<TxOut>, lo: nat, hi: nat, k: nat)
    requires lo <= hi && k < (hi - lo) * 8
    ensures |AvailBits(vout, lo, hi)| == (hi - lo) * 8
    ensures AvailBits(vout, lo, hi)[k] == Avail(vout, 2 + lo * 8 + k)
    decreases hi - lo
  {
    AvailBitsSize(vout, lo, hi);
    AvailBitsSize(vout, lo + 1, hi);
    if k >= 8 {
      AvailBitsAt(vout, lo + 1, hi, k - 8);
    }
  }

  lemma {:induction false} AvailBitsSize(vout: seq<TxOut>, lo: nat, hi: nat)
    requires lo <= hi
    ensures |AvailBits(vout, lo, hi)| == (hi - lo) * 8
    decreases hi - lo
  {
    if lo < hi {
      AvailBitsSize(vout, lo + 1, hi);
    }
  }

  lemma FirstToken(t: Token, more: seq<Token>, rest: seq<Token>)
    ensures ([t] + more + rest)[0] == t && ([t] + more + rest)[1..] == more + rest
  {
    assert [t] + more + rest == [t] + (more + rest);
  }

  /** Reading one byte of the mask. */
  lemma {:induction false} ReadByte(s: seq<Token>, n: nat, vAvail: seq<bool>, vout: seq<TxOut>, b: nat)
    requires n > 0 && s != [] && s[0] == Byte(ByteOf(MaskBits(vout, b)))
    ensures ReadMask(s, n, vAvail) ==
              ReadMask(s[1..], if Nonzero(vout, b) then n - 1 else n, vAvail + MaskBits(vout, b))
  {
    BitsOfByte(MaskBits(vout, b));
    ByteIsZero(MaskBits(vout, b));
  }

  /** The reader stops exactly at the last byte written, which is not zero. */
  lemma {:induction false} MaskReadBack(vout: seq<TxOut>, lo: nat, hi: nat, n: nat, vAvail: seq<bool>, rest: seq<Token>)
    requires lo <= hi && (hi > 0 ==> Nonzero(vout, hi - 1)) && NonzeroCount(vout, lo) + n == NonzeroCount(vout, hi)
    ensures ReadMask(MaskTokens(vout, lo, hi) + rest, n, vAvail) == Some((vAvail + AvailBits(vout, lo, hi), rest))
    decreases hi - lo
  {
    if lo == hi {
      assert MaskTokens(vout, lo, hi) + rest == rest;
      assert vAvail + AvailBits(vout, lo, hi) == vAvail;
    } else {
      MoreToCome(vout, lo, hi, n);
      var left := if Nonzero(vout, lo) then n - 1 else n;
      MaskStep(vout, lo, hi, n, left, vAvail, rest);
      MaskReadBack(vout, lo + 1, hi, left, vAvail + MaskBits(vout, lo), rest);
      AppendAvail(vAvail, MaskBits(vout, lo), AvailBits(vout, lo + 1, hi));
    }
  }

  lemma AppendAvail(a: seq<bool>, b: seq<bool>, c: seq<bool>)
    ensures a + b + c == a + (b + c)
  {
  }

  lemma {:induction false} MaskStep(vout: seq<TxOut>, lo: nat, hi: nat, n: nat, left: nat, vAvail: seq<bool>,
                                    rest: seq<Token>)
    requires lo < hi && n > 0 && left == if Nonzero(vout, lo) then n - 1 else n
    ensures ReadMask(MaskTokens(vout, lo, hi) + rest, n, vAvail) ==
            ReadMask(MaskTokens(vout, lo + 1, hi) + rest, left, vAvail + MaskBits(vout, lo))
  {
    FirstToken(Byte(ByteOf(MaskBits(vout, lo))), MaskTokens(vout, lo + 1, hi), rest);
    ReadByte(MaskTokens(vout, lo, hi) + rest, n, vAvail, vout, lo);
  }

  lemma {:induction false} MoreToCome(vout: seq<TxOut>, lo: nat, hi: nat, n: nat)
    requires lo < hi && Nonzero(vout, hi - 1) && NonzeroCount(vout, lo) + n == NonzeroCount(vout, hi)
    ensures n > 0 && NonzeroCount(vout, lo + 1) + (if Nonzero(vout, lo) then n - 1 else n) == NonzeroCount(vout, hi)
  {
    CountGrows(vout, lo, hi - 1);
  }

  /** An output is read back as its stored form. */
  lemma OutReadBack(o: TxOut)
    ensures Decompress(Compress(o)) == DiskOut(o)
  {
  }

  ghost predicate AvailOf(vAvail: seq<bool>, vout: seq<TxOut>) {
    && (forall i :: 0 <= i < |vAvail| ==> vAvail[i] == Avail(vout, i))
    && (forall i :: |vAvail| <= i < |vout| ==> !Avail(vout, i))
  }

  lemma {:induction false} NothingMore(vout: seq<TxOut>, i: nat)
    requires forall k :: i <= k < |vout| ==> !Avail(vout, k)
    ensures OutTokens(vout, i) == []
    decreases |vout| - i
  {
    if i < |vout| {
      assert !Avail(vout, i);
      NothingMore(vout, i + 1);
    }
  }

  lemma {:induction false} OutsReadBack(vout: seq<TxOut>, vAvail: seq<bool>, i: nat, rest: seq<Token>)
    requires i <= |vAvail| && AvailOf(vAvail, vout)
    ensures ReadOuts(OutTokens(vout, i) + rest, vAvail, i) == Some((DiskOuts(vout, |vAvail|)[i..], rest))
    decreases |vAvail| - i
  {
    var all := DiskOuts(vout, |vAvail|);
    if i == |vAvail| {
      NothingMore(vout, i);
      assert OutTokens(vout, i) + rest == rest && all[i..] == [];
    } else {
      OutsReadBack(vout, vAvail, i + 1, rest);
      OneOutReadBack(vout, vAvail, i, rest, all);
    }
  }

  lemma {:induction false} OneOutReadBack(vout: seq<TxOut>, vAvail: seq<bool>, i: nat, rest: seq<Token>,
                                          all: seq<TxOut>)
    requires i < |vAvail| == |all| && vAvail[i] == Avail(vout, i)
    requires all[i] == if vAvail[i] then DiskOut(vout[i]) else NULL_OUT
    requires ReadOuts(OutTokens(vout, i + 1) + rest, vAvail, i + 1) == Some((all[i + 1..], rest))
    ensures ReadOuts(OutTokens(vout, i) + rest, vAvail, i) == Some((all[i..], rest))
  {
    assert all[i..] == [all[i]] + all[i + 1..];
    if vAvail[i] {
      OutReadBack(vout[i]);
      FirstToken(Compress(vout[i]), OutTokens(vout, i + 1), rest);
    } else {
      SkipNull(vout, i);
    }
  }

  lemma {:induction false} SkipNull(vout: seq<TxOut>, i: nat)
    requires !Avail(vout, i)
    ensures OutTokens(vout, i) == OutTokens(vout, i + 1)
  {
  }

  /** Where the outputs end does not matter after cleaning, as long as nothing unspent is cut off. */
  lemma {:induction false} TrimmedOuts(vout: seq<TxOut>, n: nat, m: nat)
    requires n <= m && forall i :: n <= i < m ==> !Avail(vout, i)
    ensures Trimmed(DiskOuts(vout, m)) == Trimmed(DiskOuts(vout, n))
    decreases m
  {
    if n < m {
      assert !Avail(vout, m - 1);
      assert DiskOuts(vout, m)[..m - 1] == DiskOuts(vout, m - 1);
      TrimmedOuts(vout, n, m - 1);
    }
  }

  lemma {:induction false} TrimmedAlike(vout: seq<TxOut>, n: nat)
    requires forall i :: n <= i < |vout| ==> !Avail(vout, i)
    ensures Trimmed(DiskOuts(vout, n)) == Trimmed(DiskOuts(vout, |vout|))
  {
    if n <= |vout| {
      TrimmedOuts(vout, n, |vout|);
    } else {
      TrimmedOuts(vout, |vout|, n);
    }
  }

  lemma CodeParts(k: nat, a: nat, b: nat, d: nat)
    requires a <= 1 && b <= 1 && d <= 1
    ensures var code := 8 * k + a + 2 * b + 4 * d;
            && code % 2 == a && code / 2 % 2 == b && code / 4 % 2 == d && code / 2 % 4 == b + 2 * d && code / 8 == k
  {
    var code := 8 * k + a + 2 * b + 4 * d;
    assert code / 2 == 4 * k + b + 2 * d;
    assert code / 4 == 2 * k + d;
  }

  /** The header code holds the flags and the number of mask bytes that are not zero. */
  lemma HeaderReadBack(c: Coins)
    requires !c.IsPruned()
    ensures var code := HeaderCode(c);
            && (code % 2 == 1) == c.fCoinBase
            && (code / 2 % 2 == 1) == Avail(c.vout, 0) && (code / 4 % 2 == 1) == Avail(c.vout, 1)
            && MaskCode(code) == NonzeroCount(c.vout, Bytes(c.vout))
  {
    SomethingToWrite(c);
    var first, second := Avail(c.vout, 0), Avail(c.vout, 1);
    var k: nat := NonzeroCount(c.vout, Bytes(c.vout)) - (if first || second then 0 else 1);
    CodeParts(k, if c.fCoinBase then 1 else 0, if first then 1 else 0, if second then 1 else 0);
  }

  lemma FlagsOf(vout: seq<TxOut>, n: nat)
    requires n == LastUsed(vout, Bytes(vout))
    ensures AvailOf([Avail(vout, 0), Avail(vout, 1)] + AvailBits(vout, 0, n), vout)
  {
    var two := [Avail(vout, 0), Avail(vout, 1)];
    var all := two + AvailBits(vout, 0, n);
    AvailBitsSize(vout, 0, n);
    forall i | 0 <= i < |all| ensures all[i] == Avail(vout, i) {
      if i >= 2 {
        AvailBitsAt(vout, 0, n, i - 2);
      }
    }
    forall i | |all| <= i < |vout| ensures !Avail(vout, i) {
      CoversAll(vout, i);
    }
  }

  /** Every record with something unspent is read back as its stored form, and nothing after it is touched. */
  lemma {:induction false} ReadsAs(c: Coins, tail: seq<Token>)
    requires !c.IsPruned()
    ensures ReadCoins(Written(c) + tail) == Some((DiskCopy(c), tail))
  {
    var n := LastUsed(c.vout, Bytes(c.vout));
    var s := Written(c) + tail;
    var end := [Varint(Kept(c.nHeight))] + tail;
    var outs := OutTokens(c.vout, 0) + end;
    var two := [Avail(c.vout, 0), Avail(c.vout, 1)];
    var vAvail := two + AvailBits(c.vout, 0, n);
    HeaderReadBack(c);
    WrittenParts(c, n, tail);
    assert ReadMask(s[2..], MaskCode(HeaderCode(c)), two) == Some((vAvail, outs)) by {
      LastUsedProperties(c.vout, Bytes(c.vout));
      MaskReadBack(c.vout, 0, n, NonzeroCount(c.vout, n), two, outs);
    }
    FlagsOf(c.vout, n);
    OutsReadBack(c.vout, vAvail, 0, end);
    TrimmedAlike(c.vout, |vAvail|);
    ReadSteps(s, vAvail, outs, DiskOuts(c.vout, |vAvail|), end);
  }

  lemma {:induction false} WrittenParts(c: Coins, n: nat, tail: seq<Token>)
    requires !c.IsPruned() && n == LastUsed(c.vout, Bytes(c.vout))
    ensures var s := Written(c) + tail;
            && |s| >= 2 && s[0] == Varint(Kept(c.nVersion)) && s[1] == Varint(HeaderCode(c))
            && s[2..] == MaskTokens(c.vout, 0, n) + (OutTokens(c.vout, 0) + ([Varint(Kept(c.nHeight))] + tail))
  {
  }

  /**
   A record is read back unchanged exactly if it is cleaned, its version and
   height are not negative, and the amount of every unspent output is storable.
   */
  lemma {:induction false} RoundTripExactly(c: Coins, tail: seq<Token>)
    requires !c.IsPruned()
    ensures ReadCoins(Written(c) + tail) == Some((c, tail)) <==>
            c.WellFormed() && c.nVersion >= 0 && c.nHeight >= 0 && AllStorable(c.vout)
  {
    ReadsAs(c, tail);
    DiskCopyExact(c);
  }

  // ----- undo data -----

  function WrittenUndo(u: TxInUndo): seq<Token> {
    [Varint(Kept(u.nHeight * 2 + if u.fCoinBase then 1 else 0))] +
    (if u.nHeight > 0 then [Varint(Kept(u.nVersion))] else []) + [Compress(u.txout)]
  }

  /** Reads into a fresh object, whose version is 0. */
  function ReadUndo(s: seq<Token>): Option<(TxInUndo, seq<Token>)> {
    if s == [] || !s[0].Varint? then None
    else
      var nHeight, fCoinBase := s[0].n / 2, s[0].n % 2 == 1;
      var versioned := nHeight > 0;
      if versioned && (|s| < 2 || !s[1].Varint?) then None
      else
        var rest := if versioned then s[2..] else s[1..];
        if rest == [] || !rest[0].Out? then None
        else Some((TxInUndo(Decompress(rest[0]), fCoinBase, nHeight, if versioned then s[1].n else 0), rest[1..]))
  }

  /** Undo data is read back as its stored form; DiskUndoExact says when that is the data written. */
  lemma {:induction false} UndoReadsAs(u: TxInUndo, tail: seq<Token>)
    requires u.nHeight >= 0
    ensures ReadUndo(WrittenUndo(u) + tail) == Some((DiskUndo(u), tail))
  {
    var s := WrittenUndo(u) + tail;
    var rest := if u.nHeight > 0 then s[2..] else s[1..];
    assert rest == [Compress(u.txout)] + tail;
    OutReadBack(u.txout);
  }

  /** The reader, step by step. */
  lemma {:induction false} ReadSteps(s: seq<Token>, vAvail: seq<bool>, rest: seq<Token>, vout: seq<TxOut>,
                                     end: seq<Token>)
    requires |s| >= 2 && s[0].Varint? && s[1].Varint?
    requires ReadMask(s[2..], MaskCode(s[1].n), [s[1].n / 2 % 2 == 1, s[1].n / 4 % 2 == 1]) == Some((vAvail, rest))
    requires ReadOuts(rest, vAvail, 0) == Some((vout[0..], end)) && end != [] && end[0].Varint?
    ensures ReadCoins(s) == Some((Coins(s[1].n % 2 == 1, Trimmed(vout), end[0].n, s[0].n), end[1..]))
  {
    assert vout[0..] == vout;
  }

  lemma {:induction false} CompressesAgain(o: TxOut)
    ensures var n := o.nValue % WORD64;
            Compress(DiskOut(o)) == Compress(o) <==> Decompressed(Cut(Compressed(n))) < WORD64
  {
    var n := o.nValue % WORD64;
    var x := Cut(Compressed(n));
    var d := Decompressed(x);
    var m := DiskOut(o).nValue % WORD64;
    WrapUnsigned(DiskOut(o).nValue, Cut(d));
    assert m == Cut(d);
    CompressOfDecompress(x);
    if Cut(Compressed(m)) == x && d >= WORD64 {
      SurvivesExactly(m);
      DecompressOfCompress(m);
      assert false;
    }
  }

  /**
   Undo data read from disk is written again to check it against the checksum
   of what was written first.  That notices a changed amount exactly if the
   amount was larger than 64 bits when it was decompressed.
   */
  lemma {:induction false} ChecksumNotices(u: TxInUndo)
    requires u.nHeight >= 0
    ensures WrittenUndo(DiskUndo(u)) == WrittenUndo(u) <==>
            Decompressed(Cut(Compressed(u.txout.nValue % WORD64))) < WORD64
  {
    CompressesAgain(u.txout);
    var n := |WrittenUndo(u)|;
    assert WrittenUndo(u)[n - 1] == Compress(u.txout);
    assert WrittenUndo(DiskUndo(u))[n - 1] == Compress(DiskOut(u.txout));
  }

  // ----- the program -----

  lemma {:induction false} ByteGrows(bits: seq<bool>, i: nat)
    requires i < |bits|
    ensures ByteOf(bits[..i + 1]) == ByteOf(bits[..i]) + (if bits[i] then Pow2(i) else 0)
    decreases i
  {
    if i == 0 {
      assert bits[..1] == [bits[0]] && bits[..0] == [];
      assert ByteOf([bits[0]]) == (if bits[0] then 1 else 0) by {
        assert [bits[0]][1..] == [];
      }
    } else {
      assert bits[..i + 1][1..] == bits[1..][..i] && bits[..i][1..] == bits[1..][..i - 1];
      ByteGrows(bits[1..], i - 1);
    }
  }

  lemma {:induction false} RestIsZero(bits: seq<bool>, i: nat)
    requires i <= |bits| && forall k :: i <= k < |bits| ==> !bits[k]
    ensures ByteOf(bits[..i]) == ByteOf(bits)
    decreases |bits| - i
  {
    if i < |bits| {
      ByteGrows(bits, i);
      RestIsZero(bits, i + 1);
    } else {
      assert bits[..i] == bits;
    }
  }

  /** One byte of the mask. */
  method MaskByte(vout: seq<TxOut>, b: nat) returns (chAvail: nat)
    ensures chAvail == ByteOf(MaskBits(vout, b))
  {
    ghost var bits := MaskBits(vout, b);
    chAvail := 0;
    var i := 0;
    while i < 8 && 2 + b * 8 + i < |vout|
      invariant 0 <= i <= 8 && chAvail == ByteOf(bits[..i])
    {
      ByteGrows(bits, i);
      if !vout[2 + b * 8 + i].IsNull() {
        chAvail := chAvail + Pow2(i);
      }
      i := i + 1;
    }
    RestIsZero(bits, i);
  }

  lemma {:induction false} MaskTokensStep(done: seq<Token>, vout: seq<TxOut>, b: nat, hi: nat)
    requires b < hi
    ensures done + MaskTokens(vout, b, hi) == done + [Byte(ByteOf(MaskBits(vout, b)))] + MaskTokens(vout, b + 1, hi)
  {
  }

  method WriteMask(vout: seq<TxOut>, nMaskSize: nat) returns (s: seq<Token>)
    ensures s == MaskTokens(vout, 0, nMaskSize)
  {
    s := [];
    for b := 0 to nMaskSize
      invariant s + MaskTokens(vout, b, nMaskSize) == MaskTokens(vout, 0, nMaskSize)
    {
      MaskTokensStep(s, vout, b, nMaskSize);
      var chAvail := MaskByte(vout, b);
      s := s + [Byte(chAvail)];
    }
  }

  lemma {:induction false} OutTokensStep(done: seq<Token>, vout: seq<TxOut>, i: nat)
    requires i < |vout|
    ensures done + OutTokens(vout, i) ==
            (if vout[i].IsNull() then done else done + [Compress(vout[i])]) + OutTokens(vout, i + 1)
  {
  }

  method WriteOuts(vout: seq<TxOut>) returns (s: seq<Token>)
    ensures s == OutTokens(vout, 0)
  {
    s := [];
    for i := 0 to |vout|
      invariant s + OutTokens(vout, i) == OutTokens(vout, 0)
    {
      OutTokensStep(s, vout, i);
      if !vout[i].IsNull() {
        s := s + [Compress(vout[i])];
      }
    }
  }

  method Serialize(c: Coins) returns (s: seq<Token>)
    requires !c.IsPruned()
    ensures s == Written(c)
  {
    var nMaskSize, nMaskCode := CalcMaskSize(c.vout);
    var fFirst := |c.vout| > 0 && !c.vout[0].IsNull();
    var fSecond := |c.vout| > 1 && !c.vout[1].IsNull();
    SomethingToWrite(c);
    assert fFirst || fSecond || nMaskCode > 0; // the assertion of the program
    var nCode := 8 * (nMaskCode - (if fFirst || fSecond then 0 else 1)) +
                 (if c.fCoinBase then 1 else 0) + (if fFirst then 2 else 0) + (if fSecond then 4 else 0);
    assert nCode == HeaderCode(c);
    var mask := WriteMask(c.vout, nMaskSize);
    var outs := WriteOuts(c.vout);
    s := [Varint(Kept(c.nVersion)), Varint(nCode)] + (mask + (outs + [Varint(Kept(c.nHeight))]));
  }

  /** Reads mask bytes; fails at the end of the stream. */
  method ReadMaskBytes(s: seq<Token>, nMaskCode: int, vAvail0: seq<bool>)
    returns (ok: bool, vAvail: seq<bool>, rest: seq<Token>)
    ensures if ok then ReadMask(s, nMaskCode, vAvail0) == Some((vAvail, rest))
            else ReadMask(s, nMaskCode, vAvail0) == None
  {
    vAvail, rest := vAvail0, s;
    var n := nMaskCode;
    while n > 0
      invariant ReadMask(rest, n, vAvail) == ReadMask(s, nMaskCode, vAvail0)
      decreases |rest|
    {
      if rest == [] || !rest[0].Byte? {
        return false, vAvail, rest;
      }
      var chAvail := rest[0].bits;
      vAvail := vAvail + BitsOf(chAvail);
      if chAvail != 0 {
        n := n - 1;
      }
      rest := rest[1..];
    }
    ok := true;
  }

  /** What is left to read, after the outputs read so far. */
  function Prepended(done: seq<TxOut>, more: Option<(seq<TxOut>, seq<Token>)>): Option<(seq<TxOut>, seq<Token>)> {
    if more.None? then None else Some((done + more.value.0, more.value.1))
  }

  lemma {:induction false} OutStep(done: seq<TxOut>, s: seq<Token>, vAvail: seq<bool>, i: nat)
    requires i < |vAvail| && (vAvail[i] ==> s != [] && s[0].Out?)
    ensures Prepended(done, ReadOuts(s, vAvail, i)) ==
            if vAvail[i] then Prepended(done + [Decompress(s[0])], ReadOuts(s[1..], vAvail, i + 1))
            else Prepended(done + [NULL_OUT], ReadOuts(s, vAvail, i + 1))
  {
    var o := if vAvail[i] then Decompress(s[0]) else NULL_OUT;
    var more := ReadOuts(if vAvail[i] then s[1..] else s, vAvail, i + 1);
    if more.Some? {
      assert done + ([o] + more.value.0) == done + [o] + more.value.0;
    }
  }

  method ReadOutputs(s: seq<Token>, vAvail: seq<bool>) returns (ok: bool, vout: seq<TxOut>, rest: seq<Token>)
    ensures if ok then ReadOuts(s, vAvail, 0) == Some((vout, rest)) else ReadOuts(s, vAvail, 0) == None
  {
    vout, rest := [], s;
    ghost var all := Prepended([], ReadOuts(s, vAvail, 0));
    for i := 0 to |vAvail|
      invariant Prepended(vout, ReadOuts(rest, vAvail, i)) == all
    {
      if vAvail[i] && (rest == [] || !rest[0].Out?) {
        return false, vout, rest;
      }
      OutStep(vout, rest, vAvail, i);
      if vAvail[i] {
        vout := vout + [Decompress(rest[0])];
        rest := rest[1..];
      } else {
        vout := vout + [NULL_OUT];
      }
    }
    ok := true;
    assert vout + [] == vout;
    NothingPrepended(ReadOuts(s, vAvail, 0));
  }

  lemma NothingPrepended(more: Option<(seq<TxOut>, seq<Token>)>)
    ensures Prepended([], more) == more
  {
    if more.Some? {
      assert [] + more.value.0 == more.value.0;
    }
  }

  method Unserialize(s: seq<Token>) returns (r: Option<(Coins, seq<Token>)>)
    ensures r == ReadCoins(s)
  {
    if |s| < 2 || !s[0].Varint? || !s[1].Varint? {
      return None;
    }
    var nCode := s[1].n;
    var ok, vAvail, rest := ReadMaskBytes(s[2..], MaskCode(nCode), [nCode / 2 % 2 == 1, nCode / 4 % 2 == 1]);
    if !ok {
      return None;
    }
    var vout, end;
    ok, vout, end := ReadOutputs(rest, vAvail);
    if !ok || end == [] || !end[0].Varint? {
      return None;
    }
    var cleaned := Cleanup(vout);
    r := Some((Coins(nCode % 2 == 1, cleaned, end[0].n, s[0].n), end[1..]));
  }
}
