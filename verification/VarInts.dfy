/**
 Variable-length integers (serialize.h: WriteVarInt and ReadVarInt): digits in
 base 128, the most significant first, each but the last one less than it
 stands for and marked by its high bit.

 Main results: ReadBack (a number comes back as Kept says, so exactly the
 non-negative ones survive), OneEncoding (what is read has no other encoding)
 and BufferSuffices.
 */
module VarInts {
  import opened Options
  import opened Powers

  /** Negative numbers end the writing loop at once, with their last seven bits. */
  function Kept(n: int): (r: nat)
    ensures r == n <==> n >= 0
  {
    if n < 0 then n % 128 else n
  }

  /** All digits of n, each with the mark that another one follows. */
  function Continued(n: nat): seq<nat> {
    if n <= 0x7F then [n + 0x80] else Continued(n / 128 - 1) + [n % 128 + 0x80]
  }

  function Encoded(n: int): seq<nat> {
    if n <= 0x7F then [n % 128] else Continued(n / 128 - 1) + [n % 128]
  }

  function Digit(b: nat): (d: nat)
    ensures d < 128 && (b < 256 ==> b == d || b == d + 0x80)
  {
    b % 128
  }

  /** The high bit: another digit follows. */
  predicate Marked(b: nat) {
    b / 128 % 2 == 1
  }

  lemma MarkAndDigit(d: nat)
    requires d < 128
    ensures Digit(d) == d == Digit(d + 0x80) && Marked(d + 0x80) && !Marked(d)
  {
  }

  /** The number read after n, and what follows it; None at the end of the stream. */
  function Decoded(s: seq<nat>, n: nat): Option<(nat, seq<nat>)>
    decreases |s|
  {
    if s == [] then None
    else
      var m := n * 128 + Digit(s[0]);
      if Marked(s[0]) then Decoded(s[1..], m + 1) else Some((m, s[1..]))
  }

  /** One digit, read after n. */
  lemma ReadMarked(s: seq<nat>, n: nat, d: nat, tail: seq<nat>)
    requires d < 128 && s == [d + 0x80] + tail
    ensures Decoded(s, n) == Decoded(tail, n * 128 + d + 1)
  {
    MarkAndDigit(d);
    assert s[1..] == tail;
  }

  lemma ReadLast(s: seq<nat>, n: nat, d: nat, tail: seq<nat>)
    requires d < 128 && s == [d] + tail
    ensures Decoded(s, n) == Some((n * 128 + d, tail))
  {
    MarkAndDigit(d);
    assert s[1..] == tail;
  }

  lemma {:induction false} ContinuedReadBack(n: nat, tail: seq<nat>)
    ensures Decoded(Continued(n) + tail, 0) == Decoded(tail, n + 1)
    decreases n
  {
    var d := n % 128;
    var rest := [d + 0x80] + tail;
    if n <= 0x7F {
      ReadMarked(rest, 0, n, tail);
    } else {
      assert Continued(n) + tail == Continued(n / 128 - 1) + rest;
      ContinuedReadBack(n / 128 - 1, rest);
      ReadMarked(rest, n / 128, d, tail);
    }
  }

  /** What was written is read back up to the loss of a sign, and nothing after it is touched. */
  lemma {:induction false} ReadBack(n: int, tail: seq<nat>)
    ensures Decoded(Encoded(n) + tail, 0) == Some((Kept(n), tail))
  {
    var d := n % 128;
    var rest := [d] + tail;
    if n <= 0x7F {
      ReadLast(rest, 0, d, tail);
    } else {
      assert Encoded(n) + tail == Continued(n / 128 - 1) + rest;
      ContinuedReadBack(n / 128 - 1, rest);
      ReadLast(rest, n / 128, d, tail);
    }
  }

  /** The marked digits read so far, if any, and what they stand for. */
  function Before(n: nat): seq<nat> {
    if n == 0 then [] else Continued(n - 1)
  }

  lemma {:induction false} BeforeGrows(n: nat, d: nat)
    requires d < 128
    ensures Before(n * 128 + d + 1) == Before(n) + [d + 0x80]
  {
    Remainder(n, 128, d);
    assert n == 0 ==> Before(n) + [d + 0x80] == [d + 0x80];
  }

  lemma {:induction false} LastGrows(n: nat, d: nat)
    requires d < 128
    ensures Encoded(n * 128 + d) == Before(n) + [d]
  {
    Remainder(n, 128, d);
    assert n == 0 ==> Before(n) + [d] == [d];
  }

  lemma {:induction false} DecodedIsEncoded(s: seq<nat>, n: nat, r: nat, rest: seq<nat>)
    requires Decoded(s, n) == Some((r, rest)) && forall i :: 0 <= i < |s| ==> s[i] < 256
    ensures Before(n) + s == Encoded(r) + rest
    decreases |s|
  {
    var b, tail := s[0], s[1..];
    var d := Digit(b);
    assert s == [b] + tail;
    Regroup(Before(n), b, tail);
    if b == d {
      ReadLast(s, n, d, tail);
      LastGrows(n, d);
    } else {
      ReadMarked(s, n, d, tail);
      BeforeGrows(n, d);
      DecodedIsEncoded(tail, n * 128 + d + 1, r, rest);
    }
  }

  lemma Regroup(a: seq<nat>, b: nat, c: seq<nat>)
    ensures a + ([b] + c) == a + [b] + c
  {
  }

  /** Every number has one encoding: the bytes read are those written for the number read. */
  lemma OneEncoding(s: seq<nat>)
    requires Decoded(s, 0).Some? && forall i :: 0 <= i < |s| ==> s[i] < 256
    ensures s == Encoded(Decoded(s, 0).value.0) + Decoded(s, 0).value.1
  {
    DecodedIsEncoded(s, 0, Decoded(s, 0).value.0, Decoded(s, 0).value.1);
    assert Before(0) + s == s;
  }

  // ----- the program -----

  /** A number of so many bits fits the buffer of the writer. */
  lemma {:induction false} ContinuedLength(n: nat, k: nat)
    requires n < Pow(128, k) && k > 0
    ensures |Continued(n)| <= k
    decreases n
  {
    if n > 0x7F {
      assert Pow(128, k) == 128 * Pow(128, k - 1);
      ContinuedLength(n / 128 - 1, k - 1);
    }
  }

  lemma BufferSuffices(n: int)
    ensures n < 0x1_0000_0000 ==> |Encoded(n)| <= (32 + 6) / 7
    ensures n < 0x1_0000_0000_0000_0000 ==> |Encoded(n)| <= (64 + 6) / 7
  {
    if n > 0x7F {
      if n < 0x1_0000_0000 {
        assert Pow(128, 4) == 268435456;
        ContinuedLength(n / 128 - 1, 4);
      }
      if n < 0x1_0000_0000_0000_0000 {
        assert Pow(128, 9) == 9223372036854775808;
        ContinuedLength(n / 128 - 1, 9);
      }
    }
  }

  function Reversed(s: seq<nat>): (r: seq<nat>)
    ensures |r| == |s| && forall i :: 0 <= i < |s| ==> r[i] == s[|s| - 1 - i]
  {
    seq(|s|, i requires 0 <= i < |s| => s[|s| - 1 - i])
  }

  lemma ReversedStep(s: seq<nat>, d: nat)
    ensures Reversed(s + [d]) == [d] + Reversed(s)
  {
  }

  /** The digits still to come for n, when len digits have been taken from its end. */
  function Remaining(n: int, len: nat): seq<nat>
    requires len > 0 ==> n >= 0
  {
    if len == 0 then Encoded(n) else Continued(n)
  }

  /** The digit the writer takes next. */
  function NextDigit(n: int, len: nat): nat {
    n % 128 + (if len > 0 then 0x80 else 0)
  }

  /** The digits taken so far and those to come make up the whole. */
  predicate Filling(n: int, len: nat, done: seq<nat>, all: seq<nat>) {
    (len > 0 ==> n >= 0) && |done| == len < |all| && Remaining(n, len) + Reversed(done) == all
  }

  lemma FillingStarts(n: int)
    ensures Filling(n, 0, [], Encoded(n))
  {
    assert Encoded(n) + Reversed([]) == Encoded(n);
  }

  /** One digit moves from those to come to those taken. */
  lemma {:induction false} DigitStep(n: int, len: nat, done: seq<nat>, all: seq<nat>)
    requires Filling(n, len, done, all)
    ensures var more := done + [NextDigit(n, len)];
            if n <= 0x7F then Reversed(more) == all else Filling(n / 128 - 1, len + 1, more, all)
  {
    var d := NextDigit(n, len);
    ReversedStep(done, d);
    if n > 0x7F {
      var rest := Remaining(n / 128 - 1, len + 1);
      assert Remaining(n, len) == rest + [d];
      Regroup(rest, d, Reversed(done));
    } else {
      assert Remaining(n, len) == [d];
    }
  }

  method Put(tmp: array<nat>, len: nat, d: nat)
    requires len < tmp.Length
    modifies tmp
    ensures tmp[..len + 1] == old(tmp[..len]) + [d]
  {
    tmp[len] := d;
  }

  /** Fills the buffer from the last digit to the first. */
  method FillBuffer(n0: int, tmp: array<nat>) returns (len: nat)
    requires |Encoded(n0)| <= tmp.Length
    modifies tmp
    ensures len < tmp.Length && Reversed(tmp[..len + 1]) == Encoded(n0)
  {
    var n := n0;
    len := 0;
    ghost var all := Encoded(n0);
    FillingStarts(n);
    while true
      invariant len < tmp.Length && Filling(n, len, tmp[..len], all)
      decreases if n > 0 then n else 0
    {
      DigitStep(n, len, tmp[..len], all);
      Put(tmp, len, NextDigit(n, len));
      if n <= 0x7F {
        break;
      }
      n := n / 128 - 1;
      len := len + 1;
    }
  }

  /** Sends the buffer out in reverse. */
  method WriteBuffer(tmp: array<nat>, len: nat) returns (s: seq<nat>)
    requires len < tmp.Length
    ensures s == Reversed(tmp[..len + 1])
  {
    s := [];
    var i := len + 1;
    while i > 0
      invariant 0 <= i <= len + 1 && |s| == len + 1 - i
      invariant forall k :: 0 <= k < |s| ==> s[k] == tmp[len - k]
    {
      i := i - 1;
      s := s + [tmp[i]];
    }
  }

  /** bits is the width of the number's type. */
  method WriteVarInt(n: int, bits: nat) returns (s: seq<nat>)
    requires (bits == 32 && n < 0x1_0000_0000) || (bits == 64 && n < 0x1_0000_0000_0000_0000)
    ensures s == Encoded(n)
  {
    BufferSuffices(n);
    var tmp := new nat[(bits + 6) / 7];
    var len := FillBuffer(n, tmp);
    s := WriteBuffer(tmp, len);
  }

  lemma CutStep(exact: nat, d: nat, m: nat)
    requires m > 0
    ensures (exact % m * 128 + d) % m == (exact * 128 + d) % m
  {
    Quotient(exact, m);
    var q := exact / m;
    assert exact * 128 + d == exact % m * 128 + d + q * 128 * m;
    AddMultiple(exact % m * 128 + d, q * 128, m);
  }

  /** Reads in arithmetic modulo 2^bits; fails at the end of the stream. */
  method ReadVarInt(s: seq<nat>, bits: nat) returns (ok: bool, n: nat, rest: seq<nat>)
    ensures ok <==> Decoded(s, 0).Some?
    ensures ok ==> n == Decoded(s, 0).value.0 % Pow2(bits) && rest == Decoded(s, 0).value.1
  {
    var count := Pow2(bits);
    n, rest := 0, s;
    ghost var exact: nat := 0;
    while true
      invariant n == exact % count && Decoded(rest, exact) == Decoded(s, 0)
      decreases |rest|
    {
      if rest == [] {
        return false, n, rest;
      }
      var digit, more := Digit(rest[0]), Marked(rest[0]);
      CutStep(exact, digit, count);
      n := (n * 128 + digit) % count;
      exact := exact * 128 + digit;
      rest := rest[1..];
      if !more {
        return true, n, rest;
      }
      AddOneCut(exact, count);
      n := (n + 1) % count;
      exact := exact + 1;
    }
  }

  lemma AddOneCut(exact: nat, m: nat)
    requires m > 0
    ensures (exact % m + 1) % m == (exact + 1) % m
  {
    Quotient(exact, m);
    AddMultiple(exact % m + 1, exact / m, m);
  }
}
