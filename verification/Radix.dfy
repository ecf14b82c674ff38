/** Numbers in positional notation, most significant digit first, and the in-place step of a radix conversion. */
module Radix {
  import opened Powers

  predicate Digits(s: seq<nat>, base: nat) {
    forall i :: 0 <= i < |s| ==> s[i] < base
  }

  function Value(s: seq<nat>, base: nat): nat {
    if s == [] then 0 else Value(s[..|s| - 1], base) * base + s[|s| - 1]
  }

  /** A number without leading zeros; zero has no digits. */
  function Canonical(n: nat, base: nat): (s: seq<nat>)
    requires base >= 2
    ensures Digits(s, base)
    decreases n
  {
    if n == 0 then [] else QuotientSmaller(n, base); Canonical(n / base, base) + [n % base]
  }

  lemma QuotientSmaller(n: nat, base: nat)
    requires n > 0 && base >= 2
    ensures n / base < n
  {
    Quotient(n, base);
    if n / base > 0 {
      assert n / base * base == n / base * (base - 1) + n / base;
      MultipleSize(n / base, base - 1);
    }
  }

  lemma {:induction false} ValueOfCanonical(n: nat, base: nat)
    requires base >= 2
    ensures Value(Canonical(n, base), base) == n
    ensures n > 0 ==> Canonical(n, base) != [] && Canonical(n, base)[0] != 0
    decreases n
  {
    if n > 0 {
      QuotientSmaller(n, base);
      ValueOfCanonical(n / base, base);
      Quotient(n, base);
      var s := Canonical(n, base);
      assert s[..|s| - 1] == Canonical(n / base, base);
      if n / base == 0 {
        Remainder(0, base, n % base);
      }
    }
  }

  lemma {:induction false} ValueLeadingZero(s: seq<nat>, base: nat)
    requires s != [] && s[0] == 0
    ensures Value(s, base) == Value(s[1..], base)
    decreases |s|
  {
    if |s| > 1 {
      ValueLeadingZero(s[..|s| - 1], base);
      assert s[..|s| - 1][1..] == s[1..][..|s| - 2];
    }
  }

  lemma {:induction false} ValuePositive(s: seq<nat>, base: nat)
    requires s != [] && s[0] != 0 && base >= 2
    ensures Value(s, base) > 0
    decreases |s|
  {
    if |s| > 1 {
      ValuePositive(s[..|s| - 1], base);
      MultipleSize(Value(s[..|s| - 1], base), base);
    }
  }

  /** Digits without a leading zero are the canonical ones of their value. */
  lemma {:induction false} CanonicalOfValue(s: seq<nat>, base: nat)
    requires base >= 2 && Digits(s, base) && (s != [] ==> s[0] != 0)
    ensures Canonical(Value(s, base), base) == s
    decreases |s|
  {
    if s != [] {
      var t, d := s[..|s| - 1], s[|s| - 1];
      ValuePositive(s, base);
      CanonicalOfValue(t, base);
      Remainder(Value(t, base), base, d);
      QuotientSmaller(Value(s, base), base);
      assert s == t + [d];
    }
  }

  /** The end of the run of c that starts at place i. */
  function Run<T(==)>(x: seq<T>, c: T, i: nat): (k: nat)
    requires i <= |x|
    ensures i <= k <= |x|
    decreases |x| - i
  {
    if i < |x| && x[i] == c then Run(x, c, i + 1) else i
  }

  lemma {:induction false} RunIs<T>(x: seq<T>, c: T, i: nat, k: nat)
    requires i <= |x|
    ensures Run(x, c, i) == k <==> i <= k <= |x| && (forall j :: i <= j < k ==> x[j] == c) && (k < |x| ==> x[k] != c)
    decreases |x| - i
  {
    if i < |x| && x[i] == c {
      RunIs(x, c, i + 1, k);
    }
  }

  /** The digits from the first that is not zero on. */
  function Stripped(s: seq<nat>): (r: seq<nat>)
    ensures |r| <= |s|
  {
    s[Run(s, 0, 0)..]
  }

  lemma {:induction false} ValueWithoutZeros(s: seq<nat>, base: nat, i: nat)
    requires i <= |s| && forall j :: 0 <= j < i ==> s[j] == 0
    ensures Value(s, base) == Value(s[i..], base)
  {
    if i > 0 {
      ValueWithoutZeros(s, base, i - 1);
      ValueLeadingZero(s[i - 1..], base);
      assert s[i - 1..][1..] == s[i..];
    } else {
      assert s[0..] == s;
    }
  }

  lemma {:induction false} StrippedIsCanonical(s: seq<nat>, base: nat)
    requires base >= 2 && Digits(s, base)
    ensures Stripped(s) == Canonical(Value(s, base), base)
  {
    var k := Run(s, 0, 0);
    RunIs(s, 0, 0, k);
    ValueWithoutZeros(s, base, k);
    CanonicalOfValue(s[k..], base);
  }

  lemma {:induction false} ValueBound(s: seq<nat>, base: nat)
    requires base >= 1 && Digits(s, base)
    ensures Value(s, base) < Pow(base, |s|)
    decreases |s|
  {
    if s != [] {
      var t, d := s[..|s| - 1], s[|s| - 1];
      ValueBound(t, base);
      DigitBelow(Value(t, base), Pow(base, |t|), d, base);
    }
  }

  lemma DigitBelow(v: nat, p: nat, d: nat, base: nat)
    requires v < p && d < base
    ensures v * base + d < base * p
  {
    ProductNonNegative(p - 1 - v, base);
    assert (p - 1 - v) * base == p * base - base - v * base;
  }

  /** Joining two numbers. */
  lemma {:induction false} ValueJoined(a: seq<nat>, b: seq<nat>, base: nat)
    ensures Value(a + b, base) == Value(a, base) * Pow(base, |b|) + Value(b, base)
    decreases |b|
  {
    if b == [] {
      assert a + b == a;
    } else {
      var t, d := b[..|b| - 1], b[|b| - 1];
      ValueJoined(a, t, base);
      assert (a + b)[..|a + b| - 1] == a + t;
      Distribute(Value(a, base), Pow(base, |t|), Value(t, base), base);
    }
  }

  lemma Distribute(x: nat, p: nat, y: nat, base: nat)
    ensures (x * p + y) * base == x * (base * p) + y * base
  {
    assert (x * p + y) * base == x * p * base + y * base;
    assert x * p * base == x * (p * base);
  }

  // ----- powers -----

  lemma {:induction false} PowAdd(b: nat, m: nat, n: nat)
    ensures Pow(b, m + n) == Pow(b, m) * Pow(b, n)
    decreases m
  {
    if m > 0 {
      PowAdd(b, m - 1, n);
      Associate(b, Pow(b, m - 1), Pow(b, n));
    }
  }

  lemma Associate(a: nat, b: nat, c: nat)
    ensures a * (b * c) == a * b * c
  {
  }

  lemma {:induction false} PowPow(b: nat, m: nat, n: nat)
    ensures Pow(Pow(b, m), n) == Pow(b, m * n)
    decreases n
  {
    if n > 0 {
      PowPow(b, m, n - 1);
      PowAdd(b, m, m * (n - 1));
      assert m + m * (n - 1) == m * n;
    } else {
      assert m * 0 == 0;
    }
  }

  lemma {:induction false} PowMonotone(x: nat, y: nat, n: nat)
    requires x <= y
    ensures Pow(x, n) <= Pow(y, n)
    decreases n
  {
    if n > 0 {
      PowMonotone(x, y, n - 1);
      ProductMonotone(x, y, Pow(x, n - 1), Pow(y, n - 1));
    }
  }

  lemma ProductMonotone(a: nat, b: nat, c: nat, d: nat)
    requires a <= b && c <= d
    ensures a * c <= b * d
  {
    ProductNonNegative(b - a, d);
    ProductNonNegative(a, d - c);
    assert (b - a) * d == b * d - a * d && a * (d - c) == a * d - a * c;
  }

  lemma {:induction false} PowGrows(b: nat, m: nat, n: nat)
    requires b >= 2 && m < n
    ensures Pow(b, m) < Pow(b, n)
    decreases n
  {
    if m < n - 1 {
      PowGrows(b, m, n - 1);
    }
    assert Pow(b, n) == b * Pow(b, n - 1) >= 2 * Pow(b, n - 1) by {
      ProductMonotone(2, b, Pow(b, n - 1), Pow(b, n - 1));
    }
  }

  /**
   If k digits of base a reach at least as far as j digits of base c, then
   q digits of base a reach further than n digits of base c when j * q > k * n.
   */
  lemma {:induction false} ReachesFurther(a: nat, c: nat, k: nat, j: nat, q: nat, n: nat)
    requires a >= 2 && k > 0 && Pow(a, k) >= Pow(c, j) && j * q > k * n
    ensures Pow(a, q) > Pow(c, n)
  {
    // raised to the power j: a^(qj) > a^(kn) = (a^k)^n >= (c^j)^n = (c^n)^j
    Commute(q, j);
    Commute(n, j);
    PowPow(a, q, j);
    PowPow(a, k, n);
    PowPow(c, j, n);
    PowPow(c, n, j);
    PowGrows(a, k * n, q * j);
    Raised(Pow(a, q), Pow(c, n), Pow(a, k), Pow(c, j), n, j);
  }

  lemma {:induction false} Raised(aq: nat, cn: nat, ak: nat, cj: nat, n: nat, j: nat)
    requires Pow(aq, j) > Pow(ak, n) && Pow(cj, n) == Pow(cn, j) && ak >= cj
    ensures aq > cn
  {
    PowMonotone(cj, ak, n);
    RootMonotone(aq, cn, j);
  }

  lemma Commute(a: nat, b: nat)
    ensures a * b == b * a
  {
  }

  lemma {:induction false} RootMonotone(x: nat, y: nat, n: nat)
    requires Pow(x, n) > Pow(y, n)
    ensures x > y
  {
    if x <= y {
      PowMonotone(x, y, n);
    }
  }

  // ----- multiplying in place -----

  /** One digit of a product: the carry plus the digit times mul gives the new digit and the next carry. */
  lemma CarryStep(d: nat, rest: seq<nat>, e: nat, rest': seq<nat>, carry: nat, out: nat, mul: nat, add: nat, base: nat)
    requires base > 0 && |rest'| == |rest| && carry + mul * d == out * base + e
    requires Value(rest', base) + carry * Pow(base, |rest|) == Value(rest, base) * mul + add
    ensures Value([e] + rest', base) + out * Pow(base, |rest| + 1) == Value([d] + rest, base) * mul + add
  {
    var p := Pow(base, |rest|);
    ValueJoined([e], rest', base);
    ValueJoined([d], rest, base);
    assert Value([e], base) == e && Value([d], base) == d by {
      assert [e][..0] == [] && [d][..0] == [];
    }
    CarryAlgebra(d, e, carry, out, mul, base, p, Value(rest, base), Value(rest', base), add);
  }

  lemma CarryAlgebra(d: nat, e: nat, carry: nat, out: nat, mul: nat, base: nat, p: nat, v: nat, v': nat, add: nat)
    requires carry + mul * d == out * base + e && v' + carry * p == v * mul + add
    ensures e * p + v' + out * (base * p) == (d * p + v) * mul + add
  {
    assert (carry + mul * d) * p == carry * p + mul * d * p;
    assert (out * base + e) * p == out * base * p + e * p;
    assert out * base * p == out * (base * p);
    assert (d * p + v) * mul == d * p * mul + v * mul;
    assert mul * d * p == d * p * mul;
  }

  /** The buffer is multiplied by mul and add is added, from the last digit to the first. */
  method MultiplyAdd(b: array<nat>, base: nat, mul: nat, add: nat) returns (carry: nat)
    requires base >= 2 && Digits(b[..], base)
    modifies b
    ensures Digits(b[..], base)
    ensures Value(b[..], base) + carry * Pow(base, b.Length) == Value(old(b[..]), base) * mul + add
  {
    carry := add;
    var i := b.Length;
    ghost var was := b[..];
    while i > 0
      invariant 0 <= i <= b.Length && Digits(b[..], base)
      invariant forall k :: 0 <= k < i ==> b[k] == was[k]
      invariant Value(b[i..], base) + carry * Pow(base, b.Length - i) == Value(was[i..], base) * mul + add
    {
      i := i - 1;
      ghost var rest := b[i + 1..];
      ghost var carried := carry;
      carry := carry + mul * b[i];
      Quotient(carry, base);
      CarryStep(b[i], was[i + 1..], carry % base, rest, carried, carry / base, mul, add, base);
      b[i] := carry % base;
      carry := carry / base;
      assert b[i..] == [b[i]] + rest && was[i..] == [was[i]] + was[i + 1..];
    }
    assert b[0..] == b[..] && was[0..] == was;
  }

  /** Nothing is carried out of a buffer that is large enough. */
  lemma NothingCarried(value: nat, carry: nat, total: nat, p: nat)
    requires value + carry * p == total < p
    ensures carry == 0 && value == total
  {
    if carry > 0 {
      MultipleSize(carry, p);
    }
  }
}
