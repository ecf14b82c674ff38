/**
 BLAKE2s as NeoScrypt uses it (neoscrypt.c: blake2s_update, neoscrypt_blake2s).

 The program streams its input through a buffer of two blocks. The
 specification is section 3.3 of RFC 7693: a list of calls of the compression
 function, which determines the hash. Main results: Blake2s, SameAsRfc.
 */
module Blake2s {
  import opened Bytes
  import opened Powers

  const BLOCK_SIZE: nat := 64
  const WORD: nat := 0x1_0000_0000
  const TWO_WORDS: nat := 0x1_0000_0000_0000_0000

  /** One call of the compression function: the block, the counter t[0], and the final flag f[0]. */
  datatype Call = Call(block: seq<Byte>, counter: nat, last: bool)

  /** A block padded with zeros. */
  function Padded(s: seq<Byte>): (r: seq<Byte>)
    requires |s| <= BLOCK_SIZE
    ensures |r| == BLOCK_SIZE
  {
    s + seq(BLOCK_SIZE - |s|, _ => 0)
  }

  /** A counter of two words, as in the RFC, or of one, as in the program. */
  function Cut(t: nat, wide: bool): nat {
    if wide then t % TWO_WORDS else t % WORD
  }

  lemma AddCut(t: nat, n: nat)
    ensures (Cut(t, false) + n) % WORD == Cut(t + n, false)
  {
    Quotient(t, WORD);
    AddMultiple(t % WORD + n, t / WORD, WORD);
    assert t % WORD + n + t / WORD * WORD == t + n;
  }

  /** The calls for data, of which t bytes come before. */
  function Calls(data: seq<Byte>, t: nat, wide: bool): (r: seq<Call>)
    ensures |r| > 0
    decreases |data|
  {
    if |data| <= BLOCK_SIZE then [Call(Padded(data), Cut(t + |data|, wide), true)]
    else [Call(data[..BLOCK_SIZE], Cut(t + BLOCK_SIZE, wide), false)] + Calls(data[BLOCK_SIZE..], t + BLOCK_SIZE, wide)
  }

  /** The calls that absorb whole blocks before the last one. */
  function Absorbed(data: seq<Byte>, t: nat, wide: bool): (r: seq<Call>)
    decreases |data|
  {
    if |data| < BLOCK_SIZE then []
    else [Call(data[..BLOCK_SIZE], Cut(t + BLOCK_SIZE, wide), false)] +
         Absorbed(data[BLOCK_SIZE..], t + BLOCK_SIZE, wide)
  }

  lemma {:induction false} AbsorbedMore(data: seq<Byte>, block: seq<Byte>, t: nat, wide: bool)
    requires |data| % BLOCK_SIZE == 0 && |block| == BLOCK_SIZE
    ensures Absorbed(data + block, t, wide) ==
            Absorbed(data, t, wide) + [Call(block, Cut(t + |data| + BLOCK_SIZE, wide), false)]
    decreases |data|
  {
    if data == [] {
      assert data + block == block && block[..BLOCK_SIZE] == block && block[BLOCK_SIZE..] == [];
    } else {
      assert (data + block)[..BLOCK_SIZE] == data[..BLOCK_SIZE];
      assert (data + block)[BLOCK_SIZE..] == data[BLOCK_SIZE..] + block;
      AbsorbedMore(data[BLOCK_SIZE..], block, t + BLOCK_SIZE, wide);
    }
  }

  /** Absorbing whole blocks and finishing with the rest gives all calls. */
  lemma {:induction false} AbsorbedThenRest(data: seq<Byte>, rest: seq<Byte>, t: nat, wide: bool)
    requires |data| % BLOCK_SIZE == 0 && rest != []
    ensures Calls(data + rest, t, wide) == Absorbed(data, t, wide) + Calls(rest, t + |data|, wide)
    decreases |data|
  {
    if data == [] {
      assert data + rest == rest;
    } else {
      assert (data + rest)[..BLOCK_SIZE] == data[..BLOCK_SIZE];
      assert (data + rest)[BLOCK_SIZE..] == data[BLOCK_SIZE..] + rest;
      AbsorbedThenRest(data[BLOCK_SIZE..], rest, t + BLOCK_SIZE, wide);
    }
  }

  /** blake2s_state: the calls made so far stand for the chain value h. */
  class Hasher {
    var calls: seq<Call>
    var t0: nat
    var f0: bool
    var buf: array<Byte>
    var buflen: nat
    /** What has been fed in: compressed blocks, then the contents of the buffer. */
    ghost var absorbed: seq<Byte>

    ghost predicate Valid()
      reads this, buf
    {
      && buf.Length == 2 * BLOCK_SIZE && buflen <= buf.Length && !f0
      && |absorbed| % BLOCK_SIZE == 0 && t0 == Cut(|absorbed|, false)
      && calls == Absorbed(absorbed, 0, false)
    }

    ghost function Fed(): seq<Byte>
      requires Valid()
      reads this, buf
    {
      absorbed + buf[..buflen]
    }

    constructor ()
      ensures Valid() && fresh(buf) && Fed() == []
    {
      calls, t0, f0, buflen, absorbed := [], 0, false, 0, [];
      buf := new Byte[2 * BLOCK_SIZE](_ => 0);
    }

    /** Counts a block and compresses the first half of the buffer. */
    method CompressFirst()
      requires Valid() && buflen >= BLOCK_SIZE
      modifies this`calls, this`t0, this`absorbed
      ensures t0 == Cut(|absorbed|, false) && |absorbed| % BLOCK_SIZE == 0 && calls == Absorbed(absorbed, 0, false)
      ensures absorbed == old(absorbed) + buf[..BLOCK_SIZE]
    {
      BlockAbsorbed(absorbed, buf[..BLOCK_SIZE]);
      t0 := (t0 + BLOCK_SIZE) % WORD;
      calls := calls + [Call(buf[..BLOCK_SIZE], t0, f0)];
      absorbed := absorbed + buf[..BLOCK_SIZE];
    }

    /** Moves bytes from the second half of the buffer to the first. */
    method ShiftLeft(moved: nat)
      requires buf.Length == 2 * BLOCK_SIZE && BLOCK_SIZE <= buflen <= BLOCK_SIZE + moved && moved <= BLOCK_SIZE
      modifies this`buflen, buf
      ensures buflen == old(buflen) - BLOCK_SIZE
      ensures old(buf[..buflen]) == old(buf[..BLOCK_SIZE]) + buf[..buflen]
    {
      ghost var was := buf[..];
      Copy(buf, 0, buf[..][BLOCK_SIZE..BLOCK_SIZE + moved]);
      buflen := buflen - BLOCK_SIZE;
      Shifted(was, buf[..], moved, buflen);
    }

    /** Compresses one of up to two blocks. */
    method Absorb(moved: nat)
      requires Valid() && BLOCK_SIZE <= buflen <= BLOCK_SIZE + moved && moved <= BLOCK_SIZE
      modifies this`calls, this`t0, this`absorbed, this`buflen, buf
      ensures Valid() && Fed() == old(Fed()) && buflen == old(buflen) - BLOCK_SIZE
    {
      CompressFirst();
      ShiftLeft(moved);
    }

    /** Adds bytes to the buffer. */
    method Append(s: seq<Byte>)
      requires Valid() && buflen + |s| <= 2 * BLOCK_SIZE
      modifies this`buflen, buf
      ensures Valid() && Fed() == old(Fed()) + s && buflen == old(buflen) + |s|
    {
      ghost var was := buf[..];
      Copy(buf, buflen, s);
      buflen := buflen + |s|;
      assert buf[..buflen] == was[..old(buflen)] + s;
    }

    /** Feeds input, however it is cut into pieces; a full buffer is compressed only if more follows. */
    method Update(input: seq<Byte>)
      requires Valid()
      modifies this`calls, this`t0, this`absorbed, this`buflen, buf
      ensures Valid() && Fed() == old(Fed()) + input
      ensures old(buflen) > 0 || input != [] ==> buflen > 0
    {
      var rest := input;
      ghost var done: seq<Byte> := [];
      while |rest| > 0
        invariant Valid() && done + rest == input && Fed() == old(Fed()) + done
        invariant old(buflen) > 0 || done != [] ==> buflen > 0
        decreases |rest|, buflen
      {
        var fill := 2 * BLOCK_SIZE - buflen;
        var n := if |rest| > fill then fill else |rest|;
        Append(rest[..n]);
        if |rest| > fill {
          Absorb(BLOCK_SIZE);
        }
        done, rest := done + rest[..n], rest[n..];
      }
    }

    /** The last one or two calls. */
    method Finish()
      requires Valid() && buflen > 0
      modifies this, buf
      ensures calls == Calls(old(Fed()), 0, false)
    {
      if buflen > BLOCK_SIZE {
        Absorb(buflen - BLOCK_SIZE);
      }
      AddCut(|absorbed|, buflen);
      t0 := (t0 + buflen) % WORD;
      f0 := true;
      ghost var rest := buf[..buflen];
      AbsorbedThenRest(absorbed, rest, 0, false);
      Copy(buf, buflen, seq(2 * BLOCK_SIZE - buflen, _ => 0));
      assert buf[..BLOCK_SIZE] == Padded(rest) by {
        ErasedIsPadded(rest, buf[..]);
      }
      calls := calls + [Call(buf[..BLOCK_SIZE], t0, f0)];
    }
  }

  lemma ErasedIsPadded(rest: seq<Byte>, buffer: seq<Byte>)
    requires |buffer| == 2 * BLOCK_SIZE && |rest| <= BLOCK_SIZE
    requires forall i :: 0 <= i < |buffer| ==> buffer[i] == if i < |rest| then rest[i] else 0
    ensures buffer[..BLOCK_SIZE] == Padded(rest)
  {
  }

  /** One block more has been absorbed. */
  lemma {:induction false} BlockAbsorbed(absorbed: seq<Byte>, block: seq<Byte>)
    requires |absorbed| % BLOCK_SIZE == 0 && |block| == BLOCK_SIZE
    ensures |absorbed + block| % BLOCK_SIZE == 0
    ensures (Cut(|absorbed|, false) + BLOCK_SIZE) % WORD == Cut(|absorbed + block|, false)
    ensures Absorbed(absorbed + block, 0, false) == Absorbed(absorbed, 0, false) +
              [Call(block, Cut(|absorbed + block|, false), false)]
  {
    AbsorbedMore(absorbed, block, 0, false);
    AddCut(|absorbed|, BLOCK_SIZE);
  }

  lemma Shifted(was: seq<Byte>, now: seq<Byte>, moved: nat, n: nat)
    requires |was| == 2 * BLOCK_SIZE && n <= moved <= BLOCK_SIZE
    requires now == Copied(was, 0, was[BLOCK_SIZE..BLOCK_SIZE + moved])
    ensures was[..BLOCK_SIZE + n] == was[..BLOCK_SIZE] + now[..n]
  {
    forall i | 0 <= i < n ensures now[i] == was[BLOCK_SIZE + i] {
      assert now[i] == was[BLOCK_SIZE..BLOCK_SIZE + moved][i];
    }
  }

  /** The calls made by the program are those for the padded key block followed by the input. */
  method Blake2s(input: seq<Byte>, key: seq<Byte>) returns (calls: seq<Call>)
    requires |key| <= BLOCK_SIZE
    ensures calls == Calls(Padded(key) + input, 0, false)
  {
    var S := new Hasher();
    S.Update(Padded(key));
    S.Update(input);
    assert S.Fed() == Padded(key) + input;
    S.Finish();
    calls := S.calls;
  }

  /** A run that feeds the same bytes in other pieces makes the same calls. */
  method InPieces(pieces: seq<seq<Byte>>, key: seq<Byte>) returns (calls: seq<Call>)
    requires |key| <= BLOCK_SIZE
    ensures calls == Calls(Padded(key) + Flat(pieces), 0, false)
  {
    var S := new Hasher();
    S.Update(Padded(key));
    for i := 0 to |pieces|
      invariant fresh(S) && fresh(S.buf) && S.Valid() && S.buflen > 0
      invariant S.Fed() == Padded(key) + Flat(pieces[..i])
    {
      assert pieces[..i + 1][..i] == pieces[..i];
      S.Update(pieces[i]);
    }
    assert pieces[..|pieces|] == pieces;
    S.Finish();
    calls := S.calls;
  }

  function Flat(pieces: seq<seq<Byte>>): seq<Byte> {
    if pieces == [] then [] else Flat(pieces[..|pieces| - 1]) + pieces[|pieces| - 1]
  }

  // ----- section 3.3 of RFC 7693 -----

  /** The data blocks of the RFC: the key block is there only if there is a key. */
  function RfcData(key: seq<Byte>, input: seq<Byte>): seq<Byte>
    requires |key| <= BLOCK_SIZE
  {
    if key == [] then input else Padded(key) + input
  }

  function LastCounter(calls: seq<Call>): nat
    requires calls != []
  {
    calls[|calls| - 1].counter
  }

  /** The counter of the last call is the length of the data. */
  lemma {:induction false} LastIsLength(data: seq<Byte>, t: nat, wide: bool)
    ensures LastCounter(Calls(data, t, wide)) == Cut(t + |data|, wide)
    decreases |data|
  {
    if |data| > BLOCK_SIZE {
      LastIsLength(data[BLOCK_SIZE..], t + BLOCK_SIZE, wide);
    }
  }

  /** Below the word size, cutting counters changes nothing. */
  lemma {:induction false} ShortCalls(data: seq<Byte>, t: nat)
    requires t + |data| < WORD
    ensures Calls(data, t, false) == Calls(data, t, true)
    decreases |data|
  {
    if |data| > BLOCK_SIZE {
      ShortCalls(data[BLOCK_SIZE..], t + BLOCK_SIZE);
    }
  }

  /**
   For inputs whose length fits the RFC's counter, the program makes the
   RFC's calls exactly if there is a key and the length stays below one word:
   the program always feeds a key block and never touches the second word.
   */
  lemma {:induction false} SameAsRfc(input: seq<Byte>, key: seq<Byte>)
    requires |key| <= BLOCK_SIZE && BLOCK_SIZE + |input| < TWO_WORDS
    ensures Calls(Padded(key) + input, 0, false) == Calls(RfcData(key, input), 0, true)
            <==> key != [] && BLOCK_SIZE + |input| < WORD
  {
    var data := Padded(key) + input;
    LastIsLength(data, 0, false);
    LastIsLength(RfcData(key, input), 0, true);
    NarrowAndWide(|data|);
    if key != [] && |data| < WORD {
      ShortCalls(data, 0);
    }
  }

  lemma NarrowAndWide(n: nat)
    requires BLOCK_SIZE <= n < TWO_WORDS
    ensures Cut(n, false) == Cut(n, true) <==> n < WORD
    ensures Cut(n, false) != Cut(n - BLOCK_SIZE, true)
  {
    Quotient(n, WORD);
    Remainder(0, TWO_WORDS, n);
    Remainder(0, TWO_WORDS, n - BLOCK_SIZE);
    if n < WORD {
      Remainder(0, WORD, n);
    } else {
      MultipleSize(n / WORD, WORD);
    }
  }
}
