/**
 The compact format of difficulty targets (bignum.h: SetCompact, GetCompact)
 for numbers that are not negative. Main results: CompactRoundsDown,
 CompactMonotone, CompactIdempotent.
 */
module Compact {
  import opened Powers

  /** BN_num_bytes */
  function NumBytes(n: nat): nat {
    if n == 0 then 0 else NumBytes(n / 256) + 1
  }

  /** n << 8k */
  function Up(n: nat, k: nat): nat {
    if k == 0 then n else Up(n, k - 1) * 256
  }

  /** n >> 8k */
  function Down(n: nat, k: nat): nat {
    if k == 0 then n else Down(n, k - 1) / 256
  }

  /** The top three bytes, or the number shifted up to fill them. */
  function TopThree(n: nat): nat {
    var size := NumBytes(n);
    if size <= 3 then Up(n, 3 - size) else Down(n, size - 3)
  }

  /** Size and mantissa: a mantissa whose sign bit is set is shortened by a byte. */
  function Parts(n: nat): (nat, nat) {
    var top := TopThree(n);
    if top >= 0x800000 then (NumBytes(n) + 1, top / 256) else (NumBytes(n), top)
  }

  function GetCompact(n: nat): nat {
    Parts(n).0 * 0x1000000 + Parts(n).1
  }

  function ValueOf(size: nat, word: nat): nat {
    if size <= 3 then Down(word, 3 - size) else Up(word, size - 3)
  }

  /** The magnitude; bit 23 holds the sign. */
  function SetCompact(nCompact: nat): (magnitude: nat) {
    ValueOf(nCompact / 0x1000000, nCompact % 0x800000)
  }

  predicate IsNegative(nCompact: nat) {
    nCompact / 0x800000 % 2 == 1
  }

  // ----- shifting -----

  lemma {:induction false} DownUp(n: nat, k: nat)
    ensures Down(Up(n, k), k) == n
  {
    if k > 0 {
      DownLast(Up(n, k), k);
      DownUp(n, k - 1);
    }
  }

  /** A shift down may begin with any of its bytes. */
  lemma {:induction false} DownLast(n: nat, k: nat)
    requires k > 0
    ensures Down(n, k) == Down(n / 256, k - 1)
  {
    if k > 1 {
      DownLast(n, k - 1);
    }
  }

  lemma {:induction false} UpLast(n: nat, k: nat)
    requires k > 0
    ensures Up(n, k) == Up(n * 256, k - 1)
  {
    if k > 1 {
      UpLast(n, k - 1);
    }
  }

  /** Shifting down and up again loses less than one unit of the last place kept. */
  lemma {:induction false} UpDown(n: nat, k: nat)
    ensures Up(Down(n, k), k) <= n < Up(Down(n, k) + 1, k)
  {
    if k > 0 {
      UpDown(n, k - 1);
      UpLast(Down(n, k), k);
      UpLast(Down(n, k) + 1, k);
      UpMonotone(Down(n, k) * 256, Down(n, k - 1), k - 1);
      UpMonotone(Down(n, k - 1) + 1, (Down(n, k) + 1) * 256, k - 1);
    }
  }

  lemma {:induction false} UpMonotone(m: nat, n: nat, k: nat)
    requires m <= n
    ensures Up(m, k) <= Up(n, k)
  {
    if k > 0 {
      UpMonotone(m, n, k - 1);
    }
  }

  lemma {:induction false} UpAdds(m: nat, n: nat, k: nat)
    ensures Up(m + n, k) == Up(m, k) + Up(n, k)
  {
    if k > 0 {
      UpAdds(m, n, k - 1);
    }
  }

  lemma {:induction false} DownMonotone(m: nat, n: nat, k: nat)
    requires m <= n
    ensures Down(m, k) <= Down(n, k)
  {
    if k > 0 {
      DownMonotone(m, n, k - 1);
    }
  }

  lemma {:induction false} NumBytesMonotone(m: nat, n: nat)
    requires m <= n
    ensures NumBytes(m) <= NumBytes(n)
  {
    if m > 0 {
      NumBytesMonotone(m / 256, n / 256);
    }
  }

  lemma {:induction false} NumBytesDown(n: nat, k: nat)
    requires k <= NumBytes(n)
    ensures NumBytes(Down(n, k)) == NumBytes(n) - k
  {
    if k > 0 {
      DownLast(n, k);
      NumBytesDown(n / 256, k - 1);
    }
  }

  lemma {:induction false} NumBytesUp(n: nat, k: nat)
    requires n > 0
    ensures NumBytes(Up(n, k)) == NumBytes(n) + k && Up(n, k) > 0
  {
    if k > 0 {
      NumBytesUp(n, k - 1);
    }
  }

  /** Numbers of three bytes. */
  lemma {:induction false} ThreeBytes(n: nat)
    requires NumBytes(n) == 3
    ensures 0x10000 <= n < 0x1000000
  {
    assert NumBytes(n / 256) == 2 && NumBytes(n / 256 / 256) == 1 && NumBytes(n / 256 / 256 / 256) == 0;
  }

  lemma {:induction false} TopIsThreeBytes(n: nat)
    requires n > 0
    ensures NumBytes(TopThree(n)) == 3 && 0x10000 <= TopThree(n) < 0x1000000
  {
    var size := NumBytes(n);
    if size <= 3 {
      NumBytesUp(n, 3 - size);
    } else {
      NumBytesDown(n, size - 3);
    }
    ThreeBytes(TopThree(n));
  }

  // ----- what a round trip gives -----

  /** Decoding gives back the parts; the sign bit is clear. */
  lemma {:induction false} Decoded(n: nat)
    ensures SetCompact(GetCompact(n)) == ValueOf(Parts(n).0, Parts(n).1) && !IsNegative(GetCompact(n))
  {
    assert Parts(n).1 < 0x800000 by {
      if n > 0 {
        TopIsThreeBytes(n);
      }
    }
    Joined(Parts(n).0, Parts(n).1);
  }

  lemma Joined(size: nat, word: nat)
    requires word < 0x800000
    ensures (size * 0x1000000 + word) / 0x1000000 == size
    ensures (size * 0x1000000 + word) % 0x800000 == word && (size * 0x1000000 + word) / 0x800000 == 2 * size
  {
    Remainder(size, 0x1000000, word);
    Remainder(2 * size, 0x800000, word);
  }

  /** How many low bytes are dropped. */
  function Dropped(n: nat): nat {
    if Parts(n).0 <= 3 then 0 else Parts(n).0 - 3
  }

  /** A round trip drops low bytes. */
  lemma {:induction false} RoundTrip(n: nat)
    ensures SetCompact(GetCompact(n)) == Up(Down(n, Dropped(n)), Dropped(n))
  {
    Decoded(n);
    var size, top := NumBytes(n), TopThree(n);
    if size <= 3 {
      DownUp(n, 3 - size);
      if size == 3 {
      } else if top >= 0x800000 {
        DownLast(top, 3 - size);
      }
    }
  }

  /** The kept bytes, and a unit of the last place kept: at least 2^15 of them make up n if anything is dropped. */
  lemma {:induction false} KeepsEnough(n: nat)
    requires Dropped(n) > 0
    ensures Down(n, Dropped(n)) >= 0x8000
  {
    if n > 0 {
      TopIsThreeBytes(n);
    }
    var size, top := NumBytes(n), TopThree(n);
    if top >= 0x800000 {
      assert Dropped(n) == size - 2;
      if size == 3 {
        assert Down(n, 1) == Down(n, 0) / 256;
      } else {
        assert Down(n, size - 2) == Down(n, size - 3) / 256;
      }
    }
  }

  lemma {:induction false} UpScales(n: nat, k: nat)
    ensures Up(n, k) == n * Up(1, k)
  {
    if k > 0 {
      UpScales(n, k - 1);
    }
  }

  /** Encoding rounds down, by less than one part in 2^15. */
  lemma {:induction false} CompactRoundsDown(n: nat)
    requires n > 0
    ensures var r := SetCompact(GetCompact(n)); r <= n && (n - r) * 0x8000 < n
  {
    RoundTrip(n);
    var k := Dropped(n);
    if k > 0 {
      var q, unit := Down(n, k), Up(1, k);
      UpDown(n, k);
      UpAdds(q, 1, k);
      KeepsEnough(n);
      UpScales(q, k);
      ScaleMonotone(0x8000, q, unit);
    }
  }

  lemma ScaleMonotone(a: nat, b: nat, unit: nat)
    requires a <= b
    ensures a * unit <= b * unit
  {
    ProductNonNegative(b - a, unit);
    assert (b - a) * unit == b * unit - a * unit;
  }

  /** The parts grow with the number, in lexicographic order. */
  lemma {:induction false} PartsMonotone(m: nat, n: nat)
    requires m <= n
    ensures Parts(m).0 < Parts(n).0 || (Parts(m).0 == Parts(n).0 && Parts(m).1 <= Parts(n).1)
  {
    NumBytesMonotone(m, n);
    if m > 0 {
      TopIsThreeBytes(m);
      TopIsThreeBytes(n);
      var size := NumBytes(m);
      if size == NumBytes(n) {
        if size <= 3 {
          UpMonotone(m, n, 3 - size);
        } else {
          DownMonotone(m, n, size - 3);
        }
      }
    }
  }

  lemma {:induction false} PartsBound(n: nat)
    ensures Parts(n).1 < 0x800000
  {
    if n > 0 {
      TopIsThreeBytes(n);
    }
  }

  /** So does the encoding, as an unsigned number. */
  lemma {:induction false} CompactMonotone(m: nat, n: nat)
    requires m <= n
    ensures GetCompact(m) <= GetCompact(n)
  {
    PartsMonotone(m, n);
    PartsBound(m);
  }

  /** The number of bytes of the number with its low bytes dropped. */
  lemma {:induction false} SameSize(n: nat, k: nat)
    requires k < NumBytes(n)
    ensures NumBytes(Up(Down(n, k), k)) == NumBytes(n)
  {
    NumBytesDown(n, k);
    NumBytesUp(Down(n, k), k);
  }

  /** Shifting up by k + 1 bytes and down by k is shifting up by one. */
  lemma {:induction false} UpThenDown(q: nat, k: nat)
    ensures Down(Up(q, k + 1), k) == q * 256
  {
    UpLast(q, k + 1);
    DownUp(q * 256, k);
  }

  /** Encoding a second time changes nothing. */
  lemma {:induction false} CompactIdempotent(n: nat)
    ensures GetCompact(SetCompact(GetCompact(n))) == GetCompact(n)
  {
    RoundTrip(n);
    var k := Dropped(n);
    if k > 0 {
      if n > 0 {
        TopIsThreeBytes(n);
      }
      var size, top := NumBytes(n), TopThree(n);
      var r := Up(Down(n, k), k);
      SameSize(n, k);
      if top >= 0x800000 {
        UpThenDown(Down(n, k), size - 3);
        assert Down(n, k) == top / 256;
      } else {
        DownUp(top, k);
      }
    }
  }

  /** A target of at most 256 bits fits the 32-bit format. */
  lemma {:induction false} CompactFits(n: nat)
    requires NumBytes(n) <= 32
    ensures GetCompact(n) < 0x1_0000_0000
  {
    PartsBound(n);
  }
}
