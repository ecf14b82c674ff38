/**
 FastKDF of NeoScrypt (neoscrypt.c: neoscrypt_fastkdf).

 The program works on linear buffers whose tails mirror their heads. The
 specification is the same algorithm on rings of 256 bytes with modular
 indexing, for any pseudo-random function. Main result: FastKdf.
 */
module FastKdf {
  import opened Bytes
  import opened Powers

  const BUFFER_SIZE: nat := 256
  const PRF_INPUT_SIZE: nat := 64
  const PRF_KEY_SIZE: nat := 32
  const PRF_OUTPUT_SIZE: nat := 32

  type Prf = (seq<Byte>, seq<Byte>) -> seq<Byte>

  /** Bitwise exclusive or. */
  function Xor(a: Byte, b: Byte): Byte {
    XorBits(a, b, 8)
  }

  function XorBits(a: nat, b: nat, bits: nat): (r: nat)
    ensures r < Pow2(bits)
  {
    if bits == 0 then 0 else (if a % 2 != b % 2 then 1 else 0) + 2 * XorBits(a / 2, b / 2, bits - 1)
  }

  // ----- the algorithm on rings -----

  /** n bytes of a ring from position p on. */
  function Slice(ring: seq<Byte>, p: nat, n: nat): (r: seq<Byte>)
    requires |ring| == BUFFER_SIZE
    ensures |r| == n && forall i :: 0 <= i < n ==> r[i] == ring[(p + i) % BUFFER_SIZE]
  {
    seq(n, i requires 0 <= i < n => ring[(p + i) % BUFFER_SIZE])
  }

  /** How far position i is after position p, going round. */
  function Offset(p: nat, i: nat): (k: nat)
    requires p < BUFFER_SIZE && i < BUFFER_SIZE
    ensures k < BUFFER_SIZE && (p + k) % BUFFER_SIZE == i
  {
    if i >= p then i - p else i + BUFFER_SIZE - p
  }

  /** Some bytes are xored into a ring from position p on. */
  function RingXor(ring: seq<Byte>, p: nat, out: seq<Byte>): (r: seq<Byte>)
    requires |ring| == BUFFER_SIZE && p < BUFFER_SIZE
    ensures |r| == BUFFER_SIZE
    ensures forall i :: 0 <= i < BUFFER_SIZE ==>
              r[i] == if Offset(p, i) < |out| then Xor(ring[i], out[Offset(p, i)]) else ring[i]
  {
    seq(BUFFER_SIZE, i requires 0 <= i < BUFFER_SIZE =>
      if Offset(p, i) < |out| then Xor(ring[i], out[Offset(p, i)]) else ring[i])
  }

  /** A ring filled with a repeated string. */
  function Filled(s: seq<Byte>): (r: seq<Byte>)
    requires s != []
    ensures |r| == BUFFER_SIZE && forall i :: 0 <= i < BUFFER_SIZE ==> r[i] == s[i % |s|]
  {
    seq(BUFFER_SIZE, i requires 0 <= i < BUFFER_SIZE => s[i % |s|])
  }

  function Sum(s: seq<Byte>): nat {
    if s == [] then 0 else Sum(s[..|s| - 1]) + s[|s| - 1]
  }

  /** The salt ring and the position. */
  datatype Ring = Ring(salt: seq<Byte>, p: nat)

  ghost predicate RingOk(r: Ring) {
    |r.salt| == BUFFER_SIZE && r.p < BUFFER_SIZE
  }

  function Step(prf: Prf, password: seq<Byte>, r: Ring): Ring
    requires |password| == BUFFER_SIZE && RingOk(r)
  {
    var out := prf(Slice(password, r.p, PRF_INPUT_SIZE), Slice(r.salt, r.p, PRF_KEY_SIZE));
    var p := Sum(out) % BUFFER_SIZE;
    Ring(RingXor(r.salt, p, out), p)
  }

  function Steps(prf: Prf, password: seq<Byte>, r: Ring, n: nat): (s: Ring)
    requires |password| == BUFFER_SIZE && RingOk(r)
    ensures RingOk(s)
  {
    if n == 0 then r else Step(prf, password, Steps(prf, password, r, n - 1))
  }

  function Output(password: seq<Byte>, r: Ring, n: nat): (s: seq<Byte>)
    requires |password| == BUFFER_SIZE && RingOk(r) && n <= BUFFER_SIZE
    ensures |s| == n && forall i :: 0 <= i < n ==> s[i] == OutputAt(password, r, i)
  {
    seq(n, i requires 0 <= i < n => OutputAt(password, r, i))
  }

  /** Byte i of the output. */
  function OutputAt(password: seq<Byte>, r: Ring, i: nat): Byte
    requires |password| == BUFFER_SIZE && RingOk(r) && i < BUFFER_SIZE
  {
    Xor(r.salt[(r.p + i) % BUFFER_SIZE], password[i])
  }

  function Truncated(s: seq<Byte>): seq<Byte> {
    if |s| > BUFFER_SIZE then s[..BUFFER_SIZE] else s
  }

  /** The derived key. */
  function Derived(prf: Prf, password: seq<Byte>, salt: seq<Byte>, n: nat, output: nat): seq<Byte>
    requires password != [] && salt != []
  {
    var a := Filled(Truncated(password));
    Output(a, Steps(prf, a, Ring(Filled(Truncated(salt)), 0), n), if output > BUFFER_SIZE then BUFFER_SIZE else output)
  }

  // ----- linear buffers -----

  /** The buffer holds the ring, and its tail repeats the head. */
  ghost predicate Mirrors(buffer: seq<Byte>, ring: seq<Byte>, tail: nat) {
    && |ring| == BUFFER_SIZE && tail <= BUFFER_SIZE && |buffer| == BUFFER_SIZE + tail
    && buffer[..BUFFER_SIZE] == ring
    && forall i :: 0 <= i < tail ==> buffer[BUFFER_SIZE + i] == ring[i]
  }

  /** So a linear read of at most the tail's length is a read of the ring. */
  lemma LinearRead(buffer: seq<Byte>, ring: seq<Byte>, tail: nat, p: nat)
    requires Mirrors(buffer, ring, tail) && p < BUFFER_SIZE
    ensures buffer[p..p + tail] == Slice(ring, p, tail)
  {
    forall i | 0 <= i < tail ensures buffer[p..p + tail][i] == Slice(ring, p, tail)[i] {
      if p + i < BUFFER_SIZE {
        assert buffer[p + i] == buffer[..BUFFER_SIZE][p + i];
      } else {
        assert buffer[BUFFER_SIZE + (p + i - BUFFER_SIZE)] == ring[p + i - BUFFER_SIZE];
      }
    }
  }

  function Xored(buffer: seq<Byte>, at: nat, s: seq<Byte>): (r: seq<Byte>)
    requires at + |s| <= |buffer|
    ensures |r| == |buffer|
    ensures forall i :: 0 <= i < |r| ==> r[i] == if at <= i < at + |s| then Xor(buffer[i], s[i - at]) else buffer[i]
  {
    seq(|buffer|, i requires 0 <= i < |buffer| => if at <= i < at + |s| then Xor(buffer[i], s[i - at]) else buffer[i])
  }

  method XorInto(dst: array<Byte>, at: nat, src: seq<Byte>)
    requires at + |src| <= dst.Length
    modifies dst
    ensures dst[..] == Xored(old(dst[..]), at, src)
  {
    for i := 0 to |src|
      invariant forall k :: 0 <= k < dst.Length ==>
                  dst[k] == if at <= k < at + i then Xor(old(dst[k]), src[k - at]) else old(dst[k])
    {
      dst[at + i] := Xor(dst[at + i], src[i]);
    }
  }

  /** The salt buffer after the pseudo-random bytes are xored in and the mirrored part is repaired. */
  function Repaired(buffer: seq<Byte>, p: nat, out: seq<Byte>): (r: seq<Byte>)
    requires |buffer| == BUFFER_SIZE + PRF_KEY_SIZE && p < BUFFER_SIZE && |out| == PRF_OUTPUT_SIZE
    ensures |r| == |buffer|
  {
    var x := Xored(buffer, p, out);
    var y := if p < PRF_KEY_SIZE then Copied(x, BUFFER_SIZE + p, x[p..PRF_KEY_SIZE]) else x;
    if BUFFER_SIZE - p < PRF_OUTPUT_SIZE then Copied(y, 0, y[BUFFER_SIZE..p + PRF_OUTPUT_SIZE]) else y
  }

  lemma RepairedAt(buffer: seq<Byte>, ring: seq<Byte>, p: nat, out: seq<Byte>, i: nat)
    requires Mirrors(buffer, ring, PRF_KEY_SIZE) && p < BUFFER_SIZE && |out| == PRF_OUTPUT_SIZE && i < BUFFER_SIZE
    ensures Repaired(buffer, p, out)[i] == RingXor(ring, p, out)[i]
    ensures i < PRF_KEY_SIZE ==> Repaired(buffer, p, out)[BUFFER_SIZE + i] == RingXor(ring, p, out)[i]
  {
    var x := Xored(buffer, p, out);
    assert buffer[i] == buffer[..BUFFER_SIZE][i] == ring[i];
    assert i < PRF_KEY_SIZE ==> buffer[BUFFER_SIZE + i] == ring[i];
    if p < PRF_KEY_SIZE {
      var y := Copied(x, BUFFER_SIZE + p, x[p..PRF_KEY_SIZE]);
      assert p <= i < PRF_KEY_SIZE ==> y[BUFFER_SIZE + i] == x[p..PRF_KEY_SIZE][i - p] == x[i];
    } else if BUFFER_SIZE - p < PRF_OUTPUT_SIZE {
      assert i < p + PRF_OUTPUT_SIZE - BUFFER_SIZE ==> x[BUFFER_SIZE..p + PRF_OUTPUT_SIZE][i] == x[BUFFER_SIZE + i];
    }
  }

  /** The repaired buffer mirrors the ring. */
  lemma RepairedMirrors(buffer: seq<Byte>, ring: seq<Byte>, p: nat, out: seq<Byte>)
    requires Mirrors(buffer, ring, PRF_KEY_SIZE) && p < BUFFER_SIZE && |out| == PRF_OUTPUT_SIZE
    ensures Mirrors(Repaired(buffer, p, out), RingXor(ring, p, out), PRF_KEY_SIZE)
  {
    var r, x := Repaired(buffer, p, out), RingXor(ring, p, out);
    forall i | 0 <= i < BUFFER_SIZE ensures r[i] == x[i] && (i < PRF_KEY_SIZE ==> r[BUFFER_SIZE + i] == x[i]) {
      RepairedAt(buffer, ring, p, out, i);
    }
    assert r[..BUFFER_SIZE] == x;
  }

  // ----- the program -----

  /** The part of a buffer before position n is filled with the string. */
  ghost predicate FilledTo(buffer: seq<Byte>, s: seq<Byte>, n: nat)
    requires s != []
  {
    n <= |buffer| && forall k :: 0 <= k < n ==> buffer[k] == s[k % |s|]
  }

  lemma FillStep(buffer: seq<Byte>, s: seq<Byte>, q: nat, at: nat, n: nat)
    requires 0 < n <= |s| && at == q * |s| && FilledTo(buffer, s, at) && at + n <= |buffer|
    ensures FilledTo(Copied(buffer, at, s[..n]), s, at + n)
  {
    var r := Copied(buffer, at, s[..n]);
    forall k | 0 <= k < at + n ensures r[k] == s[k % |s|] {
      if k >= at {
        Remainder(q, |s|, k - at);
      }
    }
  }

  lemma Next(q: nat, n: nat)
    ensures (q + 1) * n == q * n + n
  {
  }

  /** The program stays inside the buffer. */
  lemma Within(i: nat, a: nat, n: nat, size: nat)
    requires n > 0 && a == size / n
    ensures a * n <= size < a * n + n
    ensures i < a ==> i * n + n <= size
  {
    if i < a {
      assert i * n + n == (i + 1) * n <= a * n;
    }
  }

  /** The set-up of a buffer: the string as often as it fits, its beginning, and the mirrored tail. */
  method Fill(buffer: array<Byte>, s: seq<Byte>, tail: nat)
    requires 0 < |s| <= BUFFER_SIZE && tail <= |s| && buffer.Length == BUFFER_SIZE + tail
    modifies buffer
    ensures Mirrors(buffer[..], Filled(s), tail)
  {
    var a := BUFFER_SIZE / |s|;
    for i := 0 to a
      invariant i * |s| <= BUFFER_SIZE && FilledTo(buffer[..], s, i * |s|)
    {
      Within(i, a, |s|, BUFFER_SIZE);
      Next(i, |s|);
      FillStep(buffer[..], s, i, i * |s|, |s|);
      assert s[..|s|] == s;
      Copy(buffer, i * |s|, s);
    }
    Within(a, a, |s|, BUFFER_SIZE);
    var b := BUFFER_SIZE - a * |s|;
    if b != 0 {
      FillStep(buffer[..], s, a, a * |s|, b);
      Copy(buffer, a * |s|, s[..b]);
    }
    FillEnd(buffer[..], s, tail);
    Copy(buffer, BUFFER_SIZE, s[..tail]);
  }

  lemma FillEnd(buffer: seq<Byte>, s: seq<Byte>, tail: nat)
    requires 0 < |s| && tail <= |s| <= BUFFER_SIZE && |buffer| == BUFFER_SIZE + tail && FilledTo(buffer, s, BUFFER_SIZE)
    ensures Mirrors(Copied(buffer, BUFFER_SIZE, s[..tail]), Filled(s), tail)
  {
    var r := Copied(buffer, BUFFER_SIZE, s[..tail]);
    forall i | 0 <= i < tail ensures r[BUFFER_SIZE + i] == Filled(s)[i] {
      Remainder(0, |s|, i);
      assert r[BUFFER_SIZE + i] == s[..tail][i] == s[i];
    }
    assert r[..BUFFER_SIZE] == Filled(s);
  }

  /** The next buffer pointer: the sum of the bytes, modulo the buffer size. */
  method NextPointer(out: seq<Byte>) returns (bufptr: nat)
    ensures bufptr == Sum(out) % BUFFER_SIZE
  {
    bufptr := 0;
    for j := 0 to |out|
      invariant bufptr == Sum(out[..j])
    {
      assert out[..j + 1][..j] == out[..j];
      bufptr := bufptr + out[j];
    }
    assert out[..|out|] == out;
    bufptr := bufptr % BUFFER_SIZE;
  }

  /** The salt buffer takes in the pseudo-random bytes; then tail or head is repaired. */
  method Modify(B: array<Byte>, bufptr: nat, out: seq<Byte>)
    requires B.Length == BUFFER_SIZE + PRF_KEY_SIZE && bufptr < BUFFER_SIZE && |out| == PRF_OUTPUT_SIZE
    modifies B
    ensures B[..] == Repaired(old(B[..]), bufptr, out)
  {
    XorInto(B, bufptr, out);
    if bufptr < PRF_KEY_SIZE {
      Copy(B, BUFFER_SIZE + bufptr, B[..][bufptr..PRF_KEY_SIZE]);
    }
    if BUFFER_SIZE - bufptr < PRF_OUTPUT_SIZE {
      Copy(B, 0, B[..][BUFFER_SIZE..bufptr + PRF_OUTPUT_SIZE]);
    }
  }

  ghost predicate IsPrf(prf: Prf) {
    forall x, k :: |prf(x, k)| == PRF_OUTPUT_SIZE
  }

  method Iterate(prf: Prf, A: array<Byte>, B: array<Byte>, N: nat, ghost password: seq<Byte>, ghost salt: seq<Byte>)
    returns (bufptr: nat)
    requires IsPrf(prf) && A != B
    requires Mirrors(A[..], password, PRF_INPUT_SIZE) && Mirrors(B[..], salt, PRF_KEY_SIZE)
    modifies B
    ensures Mirrors(B[..], Steps(prf, password, Ring(salt, 0), N).salt, PRF_KEY_SIZE)
    ensures bufptr == Steps(prf, password, Ring(salt, 0), N).p
  {
    bufptr := 0;
    for i := 0 to N
      invariant A[..] == old(A[..]) && B.Length == BUFFER_SIZE + PRF_KEY_SIZE
      invariant bufptr == Steps(prf, password, Ring(salt, 0), i).p
      invariant Mirrors(B[..], Steps(prf, password, Ring(salt, 0), i).salt, PRF_KEY_SIZE)
    {
      ghost var r := Steps(prf, password, Ring(salt, 0), i);
      LinearRead(A[..], password, PRF_INPUT_SIZE, bufptr);
      LinearRead(B[..], r.salt, PRF_KEY_SIZE, bufptr);
      var out := prf(A[..][bufptr..bufptr + PRF_INPUT_SIZE], B[..][bufptr..bufptr + PRF_KEY_SIZE]);
      bufptr := NextPointer(out);
      RepairedMirrors(B[..], r.salt, bufptr, out);
      Modify(B, bufptr, out);
    }
  }

  /** The final xor and copy, in one piece or two. */
  method Finish(A: array<Byte>, B: array<Byte>, bufptr: nat, outputLen: nat, ghost password: seq<Byte>,
                ghost salt: seq<Byte>)
    returns (output: array<Byte>)
    requires A != B && bufptr < BUFFER_SIZE && outputLen <= BUFFER_SIZE
    requires Mirrors(A[..], password, PRF_INPUT_SIZE) && Mirrors(B[..], salt, PRF_KEY_SIZE)
    modifies B
    ensures fresh(output) && output[..] == Output(password, Ring(salt, bufptr), outputLen)
  {
    output := new Byte[outputLen](_ => 0);
    var a := BUFFER_SIZE - bufptr;
    ghost var buffer := B[..];
    var pass := A[..];
    if a >= outputLen {
      XorInto(B, bufptr, pass[..outputLen]);
      OnePiece(buffer, pass, salt, password, bufptr, outputLen);
      Copy(output, 0, B[..][bufptr..bufptr + outputLen]);
    } else {
      XorInto(B, bufptr, pass[..a]);
      XorInto(B, 0, pass[a..outputLen]);
      TwoPieces(buffer, pass, salt, password, bufptr, a, outputLen);
      CopyTwo(output, B[..][bufptr..bufptr + a], B[..][..outputLen - a]);
    }
  }

  method CopyTwo(output: array<Byte>, first: seq<Byte>, second: seq<Byte>)
    requires output.Length == |first| + |second|
    modifies output
    ensures output[..] == first + second
  {
    Copy(output, 0, first);
    Copy(output, |first|, second);
  }

  lemma OnePiece(buffer: seq<Byte>, pass: seq<Byte>, salt: seq<Byte>, password: seq<Byte>, p: nat, n: nat)
    requires Mirrors(pass, password, PRF_INPUT_SIZE) && Mirrors(buffer, salt, PRF_KEY_SIZE)
    requires p + n <= BUFFER_SIZE && p < BUFFER_SIZE
    ensures Xored(buffer, p, pass[..n])[p..p + n] == Output(password, Ring(salt, p), n)
  {
    var x := Xored(buffer, p, pass[..n]);
    forall i | 0 <= i < n ensures x[p..p + n][i] == Output(password, Ring(salt, p), n)[i] {
      OnePieceAt(buffer, pass, salt, password, p, n, i);
    }
  }

  lemma OnePieceAt(buffer: seq<Byte>, pass: seq<Byte>, salt: seq<Byte>, password: seq<Byte>, p: nat, n: nat, i: nat)
    requires Mirrors(pass, password, PRF_INPUT_SIZE) && Mirrors(buffer, salt, PRF_KEY_SIZE) && p + n <= BUFFER_SIZE
    requires i < n
    ensures Xored(buffer, p, pass[..n])[p + i] == OutputAt(password, Ring(salt, p), i)
  {
    assert pass[i] == pass[..BUFFER_SIZE][i] && buffer[p + i] == buffer[..BUFFER_SIZE][p + i];
  }

  lemma TwoPieces(buffer: seq<Byte>, pass: seq<Byte>, salt: seq<Byte>, password: seq<Byte>, p: nat, a: nat, n: nat)
    requires Mirrors(pass, password, PRF_INPUT_SIZE) && Mirrors(buffer, salt, PRF_KEY_SIZE)
    requires p < BUFFER_SIZE && a == BUFFER_SIZE - p && a < n <= BUFFER_SIZE
    ensures var x := Xored(Xored(buffer, p, pass[..a]), 0, pass[a..n]);
            |x| == |buffer| && x[p..p + a] + x[..n - a] == Output(password, Ring(salt, p), n)
  {
    var x := Xored(Xored(buffer, p, pass[..a]), 0, pass[a..n]);
    var whole := Output(password, Ring(salt, p), n);
    assert x[p..p + a] == whole[..a] by {
      forall i | 0 <= i < a ensures x[p..p + a][i] == whole[..a][i] {
        FirstPiece(buffer, pass, salt, password, p, a, n, i);
      }
    }
    assert x[..n - a] == whole[a..] by {
      forall i | 0 <= i < n - a ensures x[..n - a][i] == whole[a..][i] {
        SecondPiece(buffer, pass, salt, password, p, a, n, i);
      }
    }
  }

  lemma FirstPiece(buffer: seq<Byte>, pass: seq<Byte>, salt: seq<Byte>, password: seq<Byte>, p: nat, a: nat, n: nat,
                   i: nat)
    requires Mirrors(pass, password, PRF_INPUT_SIZE) && Mirrors(buffer, salt, PRF_KEY_SIZE)
    requires p < BUFFER_SIZE && a == BUFFER_SIZE - p && a < n <= BUFFER_SIZE && i < a
    ensures Xored(Xored(buffer, p, pass[..a]), 0, pass[a..n])[p + i] == OutputAt(password, Ring(salt, p), i)
  {
    assert pass[i] == pass[..BUFFER_SIZE][i] && buffer[p + i] == buffer[..BUFFER_SIZE][p + i];
  }

  lemma SecondPiece(buffer: seq<Byte>, pass: seq<Byte>, salt: seq<Byte>, password: seq<Byte>, p: nat, a: nat, n: nat,
                    i: nat)
    requires Mirrors(pass, password, PRF_INPUT_SIZE) && Mirrors(buffer, salt, PRF_KEY_SIZE)
    requires p < BUFFER_SIZE && a == BUFFER_SIZE - p && a < n <= BUFFER_SIZE && i < n - a
    ensures Xored(Xored(buffer, p, pass[..a]), 0, pass[a..n])[i] == OutputAt(password, Ring(salt, p), a + i)
  {
    assert pass[a + i] == pass[..BUFFER_SIZE][a + i] && buffer[i] == buffer[..BUFFER_SIZE][i];
  }

  /**
   For a password of at least 64 and a salt of at least 32 bytes, the program
   computes the algorithm on rings, for any number of rounds and any function.
   */
  method FastKdf(prf: Prf, password: seq<Byte>, salt: seq<Byte>, N: nat, outputLen: nat) returns (output: array<Byte>)
    requires IsPrf(prf) && |password| >= PRF_INPUT_SIZE && |salt| >= PRF_KEY_SIZE
    ensures output[..] == Derived(prf, password, salt, N, outputLen)
  {
    var A := new Byte[BUFFER_SIZE + PRF_INPUT_SIZE](_ => 0);
    var B := new Byte[BUFFER_SIZE + PRF_KEY_SIZE](_ => 0);
    var pass, salty := Truncated(password), Truncated(salt);
    Fill(A, pass, PRF_INPUT_SIZE);
    Fill(B, salty, PRF_KEY_SIZE);
    var bufptr := Iterate(prf, A, B, N, Filled(pass), Filled(salty));
    output := Finish(A, B, bufptr, if outputLen > BUFFER_SIZE then BUFFER_SIZE else outputLen,
                     Filled(pass), Steps(prf, Filled(pass), Ring(Filled(salty), 0), N).salt);
  }
}
