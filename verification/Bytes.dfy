/** Bytes, and memcpy into a buffer. */
module Bytes {
  type Byte = x: nat | x < 256

  /** len bytes of a string overwrite a part of a buffer. */
  function Copied(buffer: seq<Byte>, at: nat, s: seq<Byte>): (r: seq<Byte>)
    requires at + |s| <= |buffer|
    ensures |r| == |buffer|
    ensures forall i :: 0 <= i < |r| ==> r[i] == if at <= i < at + |s| then s[i - at] else buffer[i]
  {
    buffer[..at] + s + buffer[at + |s|..]
  }

  method Copy(dst: array<Byte>, at: nat, src: seq<Byte>)
    requires at + |src| <= dst.Length
    modifies dst
    ensures dst[..] == Copied(old(dst[..]), at, src)
  {
    for i := 0 to |src|
      invariant forall k :: 0 <= k < dst.Length ==> dst[k] == if at <= k < at + i then src[k - at] else old(dst[k])
    {
      dst[at + i] := src[i];
    }
  }
}
