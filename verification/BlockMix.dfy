/**
 The block mixer of NeoScrypt (neoscrypt.c: neoscrypt_blkmix).

 X holds 2r blocks. For r = 1 and r = 2 the program runs unrolled code that
 swaps blocks in place; the specification is the reference loop, for any
 exclusive or and any mixing function (Salsa or ChaCha with some rounds).
 */
module BlockMix {
  /** The chain of mixed blocks: each is xored with its predecessor, the first with the last block, and mixed. */
  function Chain<T>(xor: (T, T) -> T, mix: T -> T, X: seq<T>, i: nat): T
    requires i < |X|
  {
    mix(xor(X[i], if i == 0 then X[|X| - 1] else Chain(xor, mix, X, i - 1)))
  }

  function Chained<T>(xor: (T, T) -> T, mix: T -> T, X: seq<T>): (Z: seq<T>)
    ensures |Z| == |X| && forall i :: 0 <= i < |X| ==> Z[i] == Chain(xor, mix, X, i)
  {
    seq(|X|, i requires 0 <= i < |X| => Chain(xor, mix, X, i))
  }

  /** The blocks at even places, followed by those at odd places. */
  function Parted<T>(Z: seq<T>, r: nat): (Y: seq<T>)
    requires |Z| == 2 * r
    ensures |Y| == |Z| && forall i :: 0 <= i < 2 * r ==> Y[i] == if i < r then Z[2 * i] else Z[2 * (i - r) + 1]
  {
    seq(2 * r, i requires 0 <= i < 2 * r => if i < r then Z[2 * i] else Z[2 * (i - r) + 1])
  }

  method Mix<T(0)>(xor: (T, T) -> T, mix: T -> T, X: array<T>, Y: array<T>, r: nat)
    requires X.Length == Y.Length == 2 * r && X != Y
    modifies X, Y
    ensures X[..] == Parted(Chained(xor, mix, old(X[..])), r)
  {
    if r == 1 {
      X[0] := mix(xor(X[0], X[1]));
      X[1] := mix(xor(X[1], X[0]));
      UnrolledOnce(xor, mix, old(X[..]));
    } else if r == 2 {
      X[0] := mix(xor(X[0], X[3]));
      X[1] := mix(xor(X[1], X[0]));
      X[2] := mix(xor(X[2], X[1]));
      X[3] := mix(xor(X[3], X[2]));
      X[1], X[2] := X[2], X[1];
      UnrolledTwice(xor, mix, old(X[..]));
    } else {
      ChainInto(xor, mix, X, Y, r);
      Part(X, Y, r);
    }
  }

  lemma UnrolledOnce<T>(xor: (T, T) -> T, mix: T -> T, X: seq<T>)
    requires |X| == 2
    ensures var a := mix(xor(X[0], X[1]));
            Parted(Chained(xor, mix, X), 1) == [a, mix(xor(X[1], a))]
  {
    assert Chain(xor, mix, X, 0) == mix(xor(X[0], X[1]));
    assert Chain(xor, mix, X, 1) == mix(xor(X[1], Chain(xor, mix, X, 0)));
  }

  lemma UnrolledTwice<T>(xor: (T, T) -> T, mix: T -> T, X: seq<T>)
    requires |X| == 4
    ensures var a := mix(xor(X[0], X[3]));
            var b := mix(xor(X[1], a));
            var c := mix(xor(X[2], b));
            var d := mix(xor(X[3], c));
            Parted(Chained(xor, mix, X), 2) == [a, c, b, d]
  {
    assert Chain(xor, mix, X, 0) == mix(xor(X[0], X[3]));
    assert Chain(xor, mix, X, 1) == mix(xor(X[1], Chain(xor, mix, X, 0)));
    assert Chain(xor, mix, X, 2) == mix(xor(X[2], Chain(xor, mix, X, 1)));
    assert Chain(xor, mix, X, 3) == mix(xor(X[3], Chain(xor, mix, X, 2)));
    var Y := Parted(Chained(xor, mix, X), 2);
    assert Y[1] == Chain(xor, mix, X, 2) && Y[2] == Chain(xor, mix, X, 1);
  }

  /** The reference loop over all blocks ... */
  method ChainInto<T(0)>(xor: (T, T) -> T, mix: T -> T, X: array<T>, Y: array<T>, r: nat)
    requires X.Length == Y.Length == 2 * r && X != Y
    modifies X, Y
    ensures Y[..] == Chained(xor, mix, old(X[..]))
  {
    ghost var was := X[..];
    for i := 0 to 2 * r
      invariant forall k :: 0 <= k < i ==> X[k] == Y[k] == Chain(xor, mix, was, k)
      invariant forall k :: i <= k < 2 * r ==> X[k] == was[k]
    {
      if i != 0 {
        X[i] := xor(X[i], X[i - 1]);
      } else {
        X[0] := xor(X[0], X[2 * r - 1]);
      }
      X[i] := mix(X[i]);
      Y[i] := X[i];
    }
  }

  /** ... and the copies back, even places first. */
  method Part<T(0)>(X: array<T>, Y: array<T>, r: nat)
    requires X.Length == Y.Length == 2 * r && X != Y
    modifies X
    ensures X[..] == Parted(Y[..], r)
  {
    ghost var Z := Parted(Y[..], r);
    for i := 0 to r
      invariant forall k :: 0 <= k < i ==> X[k] == Z[k]
    {
      X[i] := Y[2 * i];
    }
    for i := 0 to r
      invariant forall k :: 0 <= k < i + r ==> X[k] == Z[k]
    {
      X[i + r] := Y[2 * i + 1];
    }
  }
}
