/** Powers of two and of other bases, and quotients, for shifts and radix conversions. */
module Powers {
  function Pow(b: nat, n: nat): (r: nat)
    ensures b > 0 ==> r > 0
  {
    if n == 0 then 1 else b * Pow(b, n - 1)
  }

  function Pow2(n: nat): (r: nat)
    ensures r > 0
  {
    if n == 0 then 1 else 2 * Pow2(n - 1)
  }

  function Min(a: int, b: int): (r: int)
    ensures r <= a && r <= b && (r == a || r == b)
  {
    if a < b then a else b
  }

  lemma ProductNonNegative(a: int, b: int)
    requires a >= 0 && b >= 0
    ensures a * b >= 0
  {
  }

  lemma MultipleSize(k: int, n: int)
    requires n > 0
    ensures k >= 1 ==> k * n >= n
    ensures k <= -1 ==> k * n <= -n
  {
    if k >= 1 {
      ProductNonNegative(k - 1, n);
      assert (k - 1) * n == k * n - n;
    } else if k <= -1 {
      ProductNonNegative(-1 - k, n);
      assert (-1 - k) * n == -n - k * n;
    }
  }

  lemma Quotient(x: nat, n: nat)
    requires n > 0
    ensures x == x / n * n + x % n && 0 <= x % n < n
  {
  }

  lemma Remainder(q: nat, n: nat, j: nat)
    requires j < n
    ensures (q * n + j) % n == j && (q * n + j) / n == q
  {
    var x := q * n + j;
    Quotient(x, n);
    assert (x / n - q) * n == x / n * n - q * n;
    MultipleSize(x / n - q, n);
  }

  lemma AddMultiple(x: nat, q: nat, n: nat)
    requires n > 0
    ensures (x + q * n) % n == x % n
  {
    Quotient(x, n);
    assert x + q * n == (x / n + q) * n + x % n;
    Remainder(x / n + q, n, x % n);
  }
}
