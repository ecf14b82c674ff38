/**
 Compression of amounts (core.cpp: CTxOutCompressor::CompressAmount and
 DecompressAmount), in 64-bit arithmetic. Main results: DecompressOfCompress
 and CompressOfDecompress on all naturals, CompressFits for the width, and
 SurvivesExactly for the program.
 */
module Amounts {
  import opened Powers

  const WORD64: nat := 0x1_0000_0000_0000_0000

  /** n without e of its trailing zeros, and e, as one number. */
  function Packed(n: nat, e: nat): nat
    requires n > 0 && e <= 9
    decreases 9 - e
  {
    if n % 10 == 0 && e < 9 then Packed(n / 10, e + 1)
    else if e < 9 then 1 + (n / 10 * 9 + n % 10 - 1) * 10 + e
    else 1 + (n - 1) * 10 + 9
  }

  function Compressed(n: nat): nat {
    if n == 0 then 0 else Packed(n, 0)
  }

  /** n * 10^e */
  function Scaled(n: nat, e: nat): nat
    decreases e
  {
    if e == 0 then n else Scaled(n * 10, e - 1)
  }

  /** The number before its zeros are put back. */
  function Base(y: nat, e: nat): nat {
    if e < 9 then y / 9 * 10 + y % 9 + 1 else y + 1
  }

  function Decompressed(x: nat): nat {
    if x == 0 then 0 else Scaled(Base((x - 1) / 10, (x - 1) % 10), (x - 1) % 10)
  }

  lemma {:induction false} DecompressOfPacked(n: nat, e: nat)
    requires n > 0 && e <= 9
    ensures Packed(n, e) > 0 && Decompressed(Packed(n, e)) == Scaled(n, e)
    decreases 9 - e
  {
    if n % 10 == 0 && e < 9 {
      DecompressOfPacked(n / 10, e + 1);
      assert n / 10 * 10 == n;
    } else if e < 9 {
      var q, d := n / 10, n % 10;
      var y := q * 9 + d - 1;
      BaseOfDigits(q, d, y);
      assert Base(y, e) == n && Packed(n, e) == 1 + y * 10 + e;
      DecompressedDigits(y, e);
    } else {
      var y := n - 1;
      assert Base(y, e) == n && Packed(n, e) == 1 + y * 10 + e;
      DecompressedDigits(y, e);
    }
  }

  lemma DecompressedDigits(y: nat, e: nat)
    requires e <= 9
    ensures Decompressed(1 + y * 10 + e) == Scaled(Base(y, e), e)
  {
    Remainder(y, 10, e);
  }

  lemma BaseOfDigits(q: nat, d: nat, y: nat)
    requires 1 <= d <= 9 && y == q * 9 + d - 1
    ensures y / 9 == q && y % 9 == d - 1
  {
    Remainder(q, 9, d - 1);
  }

  /** Decompression inverts compression. */
  lemma DecompressOfCompress(n: nat)
    ensures Decompressed(Compressed(n)) == n
  {
    if n > 0 {
      DecompressOfPacked(n, 0);
    }
  }

  lemma {:induction false} PackedOfScaled(b: nat, e: nat, k: nat)
    requires b > 0 && k + e <= 9
    ensures Scaled(b, e) > 0 && Packed(Scaled(b, e), k) == Packed(b, k + e)
    decreases e
  {
    if e > 0 {
      PackedOfScaled(b * 10, e - 1, k);
      assert b * 10 % 10 == 0 && b * 10 / 10 == b;
    }
  }

  /** Compression inverts decompression. */
  lemma {:induction false} CompressOfDecompress(x: nat)
    ensures Compressed(Decompressed(x)) == x
  {
    if x > 0 {
      var y, e := (x - 1) / 10, (x - 1) % 10;
      PackedOfScaled(Base(y, e), e, 0);
      if e < 9 {
        assert Base(y, e) % 10 == y % 9 + 1 && Base(y, e) / 10 == y / 9;
      }
    }
  }

  /** A compressed amount is at most nine times as large, so amounts below 2^64 / 9 do not overflow. */
  lemma {:induction false} PackedBound(n: nat, e: nat)
    requires n > 0 && e <= 9
    ensures Packed(n, e) <= 9 * n + e + (if e == 9 then n else 0)
    decreases 9 - e
  {
    if n % 10 == 0 && e < 9 {
      PackedBound(n / 10, e + 1);
    }
  }

  lemma CompressFits(n: nat)
    ensures Compressed(n) <= 9 * n
    ensures 9 * n < WORD64 ==> Compressed(n) < WORD64
  {
    if n > 0 {
      PackedBound(n, 0);
    }
  }

  /** A product cut to 64 bits. */
  function Cut(x: nat): (r: nat)
    ensures r < WORD64 && (x < WORD64 ==> r == x)
  {
    x % WORD64
  }

  lemma CutProduct(x: nat, m: nat)
    ensures Cut(Cut(x) * m) == Cut(x * m)
  {
    Quotient(x, WORD64);
    var q := x / WORD64;
    assert x * m == Cut(x) * m + q * m * WORD64;
    AddMultiple(Cut(x) * m, q * m, WORD64);
  }

  method CompressAmount(amount: nat) returns (x: nat)
    requires amount < WORD64
    ensures x == Cut(Compressed(amount))
  {
    if amount == 0 {
      return 0;
    }
    var n, e := amount, 0;
    while n % 10 == 0 && e < 9
      invariant 0 < n <= amount && e <= 9 && Packed(n, e) == Packed(amount, 0)
    {
      n := n / 10;
      e := e + 1;
    }
    if e < 9 {
      var d := n % 10;
      assert 1 <= d <= 9; // the assertion of the program
      n := n / 10;
      x := Cut(1 + (n * 9 + d - 1) * 10 + e);
    } else {
      x := Cut(1 + (n - 1) * 10 + 9);
    }
  }

  method DecompressAmount(compressed: nat) returns (n: nat)
    requires compressed < WORD64
    ensures n == Cut(Decompressed(compressed))
  {
    if compressed == 0 {
      return 0;
    }
    var x := compressed - 1;
    var e: nat := x % 10;
    x := x / 10;
    if e < 9 {
      var d := x % 9 + 1;
      x := x / 9;
      n := Cut(x * 10 + d);
    } else {
      n := Cut(x + 1);
    }
    ghost var exact := Base((compressed - 1) / 10, e);
    while e > 0
      invariant e >= 0 && n == Cut(exact) && Scaled(exact, e) == Decompressed(compressed)
      decreases e
    {
      CutProduct(exact, 10);
      n := Cut(n * 10);
      exact := exact * 10;
      e := e - 1;
    }
  }

  // ----- which amounts survive 64 bits -----

  /** What the program gives back for an amount. */
  function Restored(n: nat): nat {
    Cut(Decompressed(Cut(Compressed(n))))
  }

  /** Only an amount without trailing zeros can overflow. */
  lemma {:induction false} OverflowingForm(n: nat)
    requires n < WORD64 && Compressed(n) >= WORD64
    ensures n % 10 != 0 && Compressed(n) == 9 * n + n % 10 - 9
  {
    if n % 10 == 0 {
      PackedBound(n / 10, 1);
    }
  }

  /** With an odd coefficient, which has an inverse, the equation has one solution below 2^64. */
  lemma OnlySolution(a: int, inv: int, t: int, b: int, n: nat, m: int, root: nat, at: int)
    requires a * inv == 1 + WORD64 * t && a * n + b == WORD64 * m && a * root + b == WORD64 * at
    requires n < WORD64 && root < WORD64
    ensures n == root
  {
    var d, j := n - root, m - at;
    assert a * d == WORD64 * j by {
      assert a * d == a * n - a * root;
    }
    assert a * inv * d == WORD64 * (inv * j) by {
      assert a * inv * d == a * d * inv;
    }
    assert a * inv * d == d + WORD64 * (t * d) by {
      assert a * inv * d == (1 + WORD64 * t) * d;
    }
    var q := inv * j - t * d;
    assert d == WORD64 * q;
  }

  /** The equation of a survivor with exponent e and p = 10^e; r is the remainder that holds its last digit. */
  lemma Equation(n: int, d: int, x: int, k: int, m: int, p: int, e: int, r: int, base: int)
    requires x == 9 * n + d - 9 - WORD64 * k && 9 * base == x + 8 - e - r && base * p == n + WORD64 * m
    ensures 9 * (p - 1) * n + p * (d - 1 - e - r) == WORD64 * (9 * m + k * p)
  {
    assert 9 * base * p == (9 * n + (d - 1 - e - r) - WORD64 * k) * p;
    assert 9 * (p - 1) * n == 9 * p * n - 9 * n;
  }

  lemma {:induction false} ScaledIsProduct(n: nat, e: nat)
    ensures Scaled(n, e) == n * Pow(10, e)
    decreases e
  {
    if e > 0 {
      ScaledIsProduct(n * 10, e - 1);
      assert n * 10 * Pow(10, e - 1) == n * (10 * Pow(10, e - 1));
    }
  }

  /** Nine times the number before its zeros are put back. */
  lemma NineTimesBase(x: nat, y: nat, e: nat)
    requires x > 0 && y == (x - 1) / 10 && e == (x - 1) % 10 && e < 9
    ensures 9 * Base(y, e) == x + 8 - e - y % 9
  {
  }

  /** The exponent and k, the multiple of 2^64 that was cut off, modulo 10. */
  lemma Tens(n: nat, x: nat, k: nat, e: nat)
    requires x > 0 && x == 9 * n + n % 10 - 9 - WORD64 * k && e == (x - 1) % 10
    ensures (e - 4 * k) % 10 == 0
  {
    assert e - 4 * k == 10 * (n - n / 10 - 1 - 1844674407370955162 * k - (x - 1) / 10);
  }

  lemma Nines(n: nat, x: nat, k: nat, e: nat, y: nat)
    requires x == 9 * n + n % 10 - 9 - WORD64 * k && x - 1 == 10 * y + e
    ensures (n % 10 - 1 - e - y % 9 - 7 * k) % 9 == 0
  {
    assert n % 10 - 1 - e - y % 9 - 7 * k == 9 * (1 - n + 2049638230412172401 * k + y + y / 9);
  }

  /** k and s as the two congruences allow them for an exponent. */
  predicate Congruent(e: nat, k: nat, s: int) {
    1 <= k <= 8 && (e - 4 * k) % 10 == 0 && (s - 7 * k) % 9 == 0 && -8 - e <= s <= 8 - e
  }

  /** n is not an overflowing amount that loses k times 2^64. */
  predicate Excluded(n: nat, k: nat) {
    n % 10 == 0 || (9 * n + n % 10 - 9) / WORD64 != k
  }

  lemma ExponentTwo(n: nat, k: nat, s: int, m: int)
    requires n < WORD64 && Congruent(2, k, s) && 891 * n + 100 * s == WORD64 * m
    ensures Excluded(n, k)
  {
    var a, inv, t := 891, 13705661702352102323, 662;
    assert (k == 3 && (s == -6 || s == 3)) || (k == 8 && (s == -7 || s == 2));
    if s == -6 {
      OnlySolution(a, inv, t, -600, n, m, 14595908610510924680, 705);
    } else if s == 3 {
      OnlySolution(a, inv, t, 300, n, m, 1925417731599313468, 93);
    } else if s == -7 {
      OnlySolution(a, inv, t, -700, n, m, 1656273317504785780, 80);
    } else if s == 2 {
      OnlySolution(a, inv, t, 200, n, m, 7432526512302726184, 359);
    }
  }

  lemma ExponentFour(n: nat, k: nat, s: int, m: int)
    requires n < WORD64 && Congruent(4, k, s) && 89991 * n + 10000 * s == WORD64 * m
    ensures Excluded(n, k)
  {
    var a, inv, t := 89991, 15842828238033401399, 77288;
    assert (k == 1 && (s == -11 || s == -2)) || (k == 6 && (s == -12 || s == -3));
    if s == -11 {
      OnlySolution(a, inv, t, -110000, n, m, 10300052185393623248, 50248);
    } else if s == -2 {
      OnlySolution(a, inv, t, -20000, n, m, 15288550632769423584, 74584);
    } else if s == -12 {
      OnlySolution(a, inv, t, -120000, n, m, 17944327501778335040, 87540);
    } else if s == -3 {
      OnlySolution(a, inv, t, -30000, n, m, 4486081875444583760, 21885);
    }
  }

  lemma ExponentSix(n: nat, k: nat, s: int, m: int)
    requires n < WORD64 && Congruent(6, k, s) && 8999991 * n + 1000000 * s == WORD64 * m
    ensures Excluded(n, k)
  {
    var a, inv, t := 8999991, 12483635422780629383, 6090647;
    assert (k == 4 && (s == -8 || s == 1));
    if s == -8 {
      OnlySolution(a, inv, t, -8000000, n, m, 15833915935345966592, 7725217);
    } else if s == 1 {
      OnlySolution(a, inv, t, 1000000, n, m, 14161661572577611840, 6909340);
    }
  }

  lemma ExponentEight(n: nat, k: nat, s: int, m: int)
    requires n < WORD64 && Congruent(8, k, s) && 899999991 * n + 100000000 * s == WORD64 * m
    ensures Excluded(n, k)
  {
    var a, inv, t := 899999991, 16430456183658535111, 801627125;
    assert (k == 2 && (s == -13 || s == -4)) || (k == 7 && (s == -14 || s == -5));
    if s == -13 {
      OnlySolution(a, inv, t, -1300000000, n, m, 14781022037580233472, 721152722);
    } else if s == -4 {
      OnlySolution(a, inv, t, -400000000, n, m, 14480868974329830400, 706508525);
    } else if s == -14 {
      OnlySolution(a, inv, t, -1400000000, n, m, 4566181225880527360, 222779860);
    } else if s == -5 {
      OnlySolution(a, inv, t, -500000000, n, m, 4266028162630124288, 208135663);
    }
  }

  /** Only even exponents meet the congruences. */
  lemma EvenExponent(e: nat, k: nat)
    requires (e - 4 * k) % 10 == 0
    ensures e % 2 == 0
  {
    var q := (e - 4 * k) / 10;
    assert e == 4 * k + 10 * q;
    assert e == 2 * (2 * k + 5 * q);
  }

  lemma ExponentZero(k: nat, s: int)
    requires Congruent(0, k, s)
    ensures s == -1 || s == 8
  {
    var q := -((0 - 4 * k) / 10);
    assert 2 * k == 5 * q;
    assert k == 5;
  }

  lemma PowersOfTen()
    ensures Pow(10, 0) == 1 && Pow(10, 2) == 100 && Pow(10, 4) == 10000
    ensures Pow(10, 6) == 1000000 && Pow(10, 8) == 100000000
  {
  }

  /** No overflowing amount solves the equation of a survivor, whatever the exponent. */
  lemma {:induction false} NoSolution(n: nat, k: nat, e: nat, p: nat, s: int, m: int)
    requires n < WORD64 && e <= 9 && Congruent(e, k, s) && p == Pow(10, e)
    requires 9 * (p - 1) * n + p * s == WORD64 * m
    ensures Excluded(n, k)
  {
    EvenExponent(e, k);
    PowersOfTen();
    if e == 0 {
      ExponentZero(k, s);
    } else if e == 2 {
      ExponentTwo(n, k, s, m);
    } else if e == 4 {
      ExponentFour(n, k, s, m);
    } else if e == 6 {
      ExponentSix(n, k, s, m);
    } else if e == 8 {
      ExponentEight(n, k, s, m);
    }
  }

  lemma {:induction false} DecompressedForm(x: nat, y: nat, e: nat, base: nat)
    requires x > 0 && y == (x - 1) / 10 && e == (x - 1) % 10 && e < 9 && base == Base(y, e)
    ensures Decompressed(x) == base * Pow(10, e) && 9 * base == x + 8 - e - y % 9
  {
    ScaledIsProduct(base, e);
    NineTimesBase(x, y, e);
  }

  lemma {:induction false} CutOffCongruent(n: nat, x: nat, k: nat, e: nat, y: nat)
    requires x > 0 && x == 9 * n + n % 10 - 9 - WORD64 * k && e == (x - 1) % 10 && y == (x - 1) / 10
    requires n < WORD64 && k > 0
    ensures Congruent(e, k, n % 10 - 1 - e - y % 9) && e < 9
  {
    Tens(n, x, k, e);
    Nines(n, x, k, e, y);
  }

  /** The amount cut off is a multiple of 2^64. */
  lemma {:induction false} CutOff(n: nat, k: nat)
    requires n < WORD64 && Compressed(n) >= WORD64 && k == Compressed(n) / WORD64
    ensures Cut(Compressed(n)) == 9 * n + n % 10 - 9 - WORD64 * k && k > 0 && !Excluded(n, k)
  {
    OverflowingForm(n);
  }

  /** What overflows does not come back: two overflows never cancel. */
  lemma {:induction false} OverflowIsLost(n: nat)
    requires n < WORD64 && Compressed(n) >= WORD64
    ensures Restored(n) != n
  {
    var k, x := Compressed(n) / WORD64, Cut(Compressed(n));
    CutOff(n, k);
    if x > 0 {
      var y, e := (x - 1) / 10, (x - 1) % 10;
      var base, p := Base(y, e), Pow(10, e);
      CutOffCongruent(n, x, k, e, y);
      DecompressedForm(x, y, e, base);
      if Restored(n) == n {
        var m := Decompressed(x) / WORD64;
        Equation(n, n % 10, x, k, m, p, e, y % 9, base);
        NoSolution(n, k, e, p, n % 10 - 1 - e - y % 9, 9 * m + k * p);
      }
    }
  }

  /** In 64-bit arithmetic exactly the amounts survive whose compressed form fits. */
  lemma {:induction false} SurvivesExactly(n: nat)
    requires n < WORD64
    ensures Cut(Decompressed(Cut(Compressed(n)))) == n <==> Compressed(n) < WORD64
  {
    if Compressed(n) < WORD64 {
      DecompressOfCompress(n);
    } else {
      OverflowIsLost(n);
    }
  }

  /** The program gives back exactly the amounts whose compressed form fits. */
  method CompressAndDecompress(amount: nat) returns (n: nat)
    requires amount < WORD64
    ensures n == amount <==> Compressed(amount) < WORD64
  {
    SurvivesExactly(amount);
    var x := CompressAmount(amount);
    n := DecompressAmount(x);
  }

  /** The largest signed amount does not survive: its compressed form overflows. */
  lemma LargestAmountIsLost()
    ensures Cut(Compressed(0x7FFF_FFFF_FFFF_FFFF)) == 9223372036854775797
    ensures Cut(Decompressed(9223372036854775797)) != 0x7FFF_FFFF_FFFF_FFFF
  {
    var base := Base(922337203685477579, 6);
    assert base == 1024819115206086199;
    assert Decompressed(9223372036854775797) == Scaled(base, 6);
    assert Scaled(base, 6) == base * 1000000;
  }
}
