/**
 The partial Merkle tree of BIP 37 (main.h and main.cpp: CPartialMerkleTree).

 The nodes visited by the recursion over (height, pos) form a tree of shape
 Shape(n, height, pos); the specifications recurse over that shape.
 Main results: ExtractionIsSound and ExtractionIsComplete.
 */
module PartialMerkle {
  import opened Merkle
  import opened Powers

  const MAX_BLOCK_SIZE: nat := 1_000_000

  /** A node of the Merkle tree: a leaf, or one or two children. */
  datatype Shape = Leaf(pos: nat) | Single(child: Shape) | Pair(left: Shape, right: Shape)

  function ShapeAt(n: nat, height: nat, pos: nat): Shape
    requires pos < TreeWidth(n, height)
    decreases height
  {
    if height == 0 then Leaf(pos)
    else if pos * 2 + 1 < TreeWidth(n, height - 1) then
      Pair(ShapeAt(n, height - 1, pos * 2), ShapeAt(n, height - 1, pos * 2 + 1))
    else Single(ShapeAt(n, height - 1, pos * 2))
  }

  /** The positions of the leaves, from left to right. */
  function Leaves(t: Shape): (r: seq<nat>)
    ensures |r| > 0
  {
    match t
    case Leaf(pos) => [pos]
    case Single(child) => Leaves(child)
    case Pair(left, right) => Leaves(left) + Leaves(right)
  }

  /** Every leaf is one of the n transactions. */
  predicate Fits(t: Shape, n: nat) {
    match t
    case Leaf(pos) => pos < n
    case Single(child) => Fits(child, n)
    case Pair(left, right) => Fits(left, n) && Fits(right, n)
  }

  /** The hash of a node. */
  function HashOf(vtx: seq<Hash>, t: Shape): Hash
    requires Fits(t, |vtx|)
  {
    match t
    case Leaf(pos) => vtx[pos]
    case Single(child) => var h := HashOf(vtx, child); Inner(h, h)
    case Pair(left, right) => Inner(HashOf(vtx, left), HashOf(vtx, right))
  }

  // ----- the leaves under a node are a contiguous range -----

  /** x << n */
  function ShiftLeft(x: nat, n: nat): nat
    decreases n
  {
    if n == 0 then x else ShiftLeft(x * 2, n - 1)
  }

  lemma {:induction false} ShiftLeftMonotone(x: nat, y: nat, n: nat)
    requires x <= y
    ensures ShiftLeft(x, n) <= ShiftLeft(y, n)
    decreases n
  {
    if n > 0 {
      ShiftLeftMonotone(x * 2, y * 2, n - 1);
    }
  }

  lemma {:induction false} WidthByShift(n: nat, height: nat, pos: nat)
    ensures pos < TreeWidth(n, height) <==> ShiftLeft(pos, height) < n
    decreases height
  {
    if height > 0 {
      WidthByShift(n, height - 1, pos * 2);
    }
  }

  function Interval(low: nat, high: nat): (r: seq<nat>)
    ensures |r| == if low <= high then high - low else 0
    ensures forall i :: 0 <= i < |r| ==> r[i] == low + i
  {
    if low <= high then seq(high - low, i requires 0 <= i => low + i) else []
  }

  lemma JoinIntervals(low: nat, middle: nat, high: nat)
    requires low <= middle <= high
    ensures Interval(low, middle) + Interval(middle, high) == Interval(low, high)
  {
  }

  lemma {:induction false} LeavesAreInterval(n: nat, height: nat, pos: nat)
    requires pos < TreeWidth(n, height)
    ensures Leaves(ShapeAt(n, height, pos)) == Interval(ShiftLeft(pos, height), Min(ShiftLeft(pos + 1, height), n))
    decreases height
  {
    WidthByShift(n, height, pos);
    if height > 0 {
      var l, r := pos * 2, pos * 2 + 1;
      LeavesAreInterval(n, height - 1, l);
      WidthByShift(n, height - 1, r);
      ShiftLeftMonotone(l, r, height - 1);
      ShiftLeftMonotone(r, r + 1, height - 1);
      assert (pos + 1) * 2 == r + 1;
      if r < TreeWidth(n, height - 1) {
        LeavesAreInterval(n, height - 1, r);
        JoinIntervals(ShiftLeft(l, height - 1), ShiftLeft(r, height - 1), Min(ShiftLeft(r + 1, height - 1), n));
      }
    }
  }

  lemma {:induction false} ShapeFits(n: nat, height: nat, pos: nat)
    requires pos < TreeWidth(n, height)
    ensures Fits(ShapeAt(n, height, pos), n)
    decreases height
  {
    if height > 0 {
      ShapeFits(n, height - 1, pos * 2);
      if pos * 2 + 1 < TreeWidth(n, height - 1) {
        ShapeFits(n, height - 1, pos * 2 + 1);
      }
    }
  }

  /** The hash over the shape is the recursion over height and position. */
  lemma {:induction false} CalcHashIsHashOf(vtx: seq<Hash>, height: nat, pos: nat)
    requires pos < TreeWidth(|vtx|, height)
    ensures Fits(ShapeAt(|vtx|, height, pos), |vtx|)
    ensures CalcHash(vtx, height, pos) == HashOf(vtx, ShapeAt(|vtx|, height, pos))
    decreases height
  {
    ShapeFits(|vtx|, height, pos);
    if height > 0 {
      CalcHashIsHashOf(vtx, height - 1, pos * 2);
      if pos * 2 + 1 < TreeWidth(|vtx|, height - 1) {
        CalcHashIsHashOf(vtx, height - 1, pos * 2 + 1);
      }
    }
  }

  // ----- matched transactions -----

  predicate AnyMatch(t: Shape, vMatch: seq<bool>)
    requires Fits(t, |vMatch|)
  {
    match t
    case Leaf(pos) => vMatch[pos]
    case Single(child) => AnyMatch(child, vMatch)
    case Pair(left, right) => AnyMatch(left, vMatch) || AnyMatch(right, vMatch)
  }

  lemma {:induction false} AnyMatchLeaf(t: Shape, vMatch: seq<bool>)
    requires Fits(t, |vMatch|)
    ensures AnyMatch(t, vMatch) <==> exists p :: p in Leaves(t) && p < |vMatch| && vMatch[p]
  {
    match t
    case Leaf(pos) =>
      assert pos in Leaves(t);
    case Single(child) =>
      AnyMatchLeaf(child, vMatch);
    case Pair(left, right) =>
      AnyMatchLeaf(left, vMatch);
      AnyMatchLeaf(right, vMatch);
  }

  /** The transactions under a node that a mask over its leaves keeps, in order. */
  function Kept(vtx: seq<Hash>, leaves: seq<nat>, keep: seq<bool>): seq<Hash>
    requires |leaves| == |keep| && forall i :: 0 <= i < |leaves| ==> leaves[i] < |vtx|
    decreases |leaves|
  {
    if leaves == [] then []
    else
      var k := |leaves| - 1;
      Kept(vtx, leaves[..k], keep[..k]) + (if keep[k] then [vtx[leaves[k]]] else [])
  }

  lemma {:induction false} KeptConcat(vtx: seq<Hash>, a: seq<nat>, b: seq<nat>, x: seq<bool>, y: seq<bool>)
    requires |a| == |x| && |b| == |y|
    requires (forall i :: 0 <= i < |a| ==> a[i] < |vtx|) && (forall i :: 0 <= i < |b| ==> b[i] < |vtx|)
    ensures Kept(vtx, a + b, x + y) == Kept(vtx, a, x) + Kept(vtx, b, y)
    decreases |b|
  {
    if b == [] {
      assert a + b == a && x + y == x;
    } else {
      var k := |b| - 1;
      assert (a + b)[..|a + b| - 1] == a + b[..k] && (x + y)[..|a + b| - 1] == x + y[..k];
      KeptConcat(vtx, a, b[..k], x, y[..k]);
    }
  }

  /** The masked transactions of a whole block. */
  function Masked(vtx: seq<Hash>, mask: seq<bool>): seq<Hash>
    requires |vtx| == |mask|
  {
    Kept(vtx, Interval(0, |vtx|), mask)
  }

  /** A masked list is a subsequence at strictly increasing positions. */
  lemma {:induction false} KeptPositions(vtx: seq<Hash>, n: nat, mask: seq<bool>) returns (at: seq<nat>)
    requires n == |mask| <= |vtx|
    ensures |at| == |Kept(vtx, Interval(0, n), mask)|
    ensures forall i :: 0 <= i < |at| ==> at[i] < n && mask[at[i]] && Kept(vtx, Interval(0, n), mask)[i] == vtx[at[i]]
    ensures forall i, j :: 0 <= i < j < |at| ==> at[i] < at[j]
  {
    if n == 0 {
      at := [];
    } else {
      var k := n - 1;
      at := KeptPositions(vtx, k, mask[..k]);
      assert Interval(0, n)[..k] == Interval(0, k);
      if mask[k] {
        at := at + [k];
      }
    }
  }

  lemma {:induction false} FitsLeaves(t: Shape, n: nat)
    requires Fits(t, n)
    ensures forall i :: 0 <= i < |Leaves(t)| ==> Leaves(t)[i] < n
  {
    match t
    case Leaf(_) =>
    case Single(child) => FitsLeaves(child, n);
    case Pair(left, right) =>
      FitsLeaves(left, n);
      FitsLeaves(right, n);
  }

  function MaskOf(leaves: seq<nat>, vMatch: seq<bool>): (r: seq<bool>)
    requires forall i :: 0 <= i < |leaves| ==> leaves[i] < |vMatch|
    ensures |r| == |leaves| && forall i :: 0 <= i < |r| ==> r[i] == vMatch[leaves[i]]
  {
    seq(|leaves|, i requires 0 <= i < |leaves| => vMatch[leaves[i]])
  }

  /** The matched transactions under a node, in order. */
  function Selected(vtx: seq<Hash>, vMatch: seq<bool>, t: Shape): seq<Hash>
    requires |vtx| == |vMatch| && Fits(t, |vtx|)
  {
    match t
    case Leaf(pos) => if vMatch[pos] then [vtx[pos]] else []
    case Single(child) => Selected(vtx, vMatch, child)
    case Pair(left, right) => Selected(vtx, vMatch, left) + Selected(vtx, vMatch, right)
  }

  lemma {:induction false} SelectedIsKept(vtx: seq<Hash>, vMatch: seq<bool>, t: Shape)
    requires |vtx| == |vMatch| && Fits(t, |vtx|)
    ensures forall i :: 0 <= i < |Leaves(t)| ==> Leaves(t)[i] < |vtx|
    ensures Selected(vtx, vMatch, t) == Kept(vtx, Leaves(t), MaskOf(Leaves(t), vMatch))
  {
    FitsLeaves(t, |vtx|);
    match t
    case Leaf(pos) =>
      assert Leaves(t)[..0] == [];
    case Single(child) => SelectedIsKept(vtx, vMatch, child);
    case Pair(left, right) =>
      SelectedIsKept(vtx, vMatch, left);
      SelectedIsKept(vtx, vMatch, right);
      var x, y := MaskOf(Leaves(left), vMatch), MaskOf(Leaves(right), vMatch);
      assert MaskOf(Leaves(t), vMatch) == x + y;
      KeptConcat(vtx, Leaves(left), Leaves(right), x, y);
  }

  // ----- building -----

  /** TraverseAndBuild: the flag bits ... */
  function Bits(vMatch: seq<bool>, t: Shape): (r: seq<bool>)
    requires Fits(t, |vMatch|)
    ensures |r| > 0
  {
    var parent := AnyMatch(t, vMatch);
    if t.Leaf? || !parent then [parent]
    else if t.Single? then [parent] + Bits(vMatch, t.child)
    else [parent] + (Bits(vMatch, t.left) + Bits(vMatch, t.right))
  }

  /** ... and the stored hashes. */
  function Hashes(vtx: seq<Hash>, vMatch: seq<bool>, t: Shape): (r: seq<Hash>)
    requires |vtx| == |vMatch| && Fits(t, |vtx|)
    ensures |r| > 0
  {
    if t.Leaf? || !AnyMatch(t, vMatch) then [HashOf(vtx, t)]
    else if t.Single? then Hashes(vtx, vMatch, t.child)
    else Hashes(vtx, vMatch, t.left) + Hashes(vtx, vMatch, t.right)
  }

  lemma {:induction false} NothingSelected(vtx: seq<Hash>, vMatch: seq<bool>, t: Shape)
    requires |vtx| == |vMatch| && Fits(t, |vtx|) && !AnyMatch(t, vMatch)
    ensures Selected(vtx, vMatch, t) == []
  {
    match t
    case Leaf(_) =>
    case Single(child) => NothingSelected(vtx, vMatch, child);
    case Pair(left, right) =>
      NothingSelected(vtx, vMatch, left);
      NothingSelected(vtx, vMatch, right);
  }

  function Depth(t: Shape): nat {
    match t
    case Leaf(_) => 0
    case Single(child) => Depth(child) + 1
    case Pair(left, right) => (if Depth(left) > Depth(right) then Depth(left) else Depth(right)) + 1
  }

  /** Nodes with a single child that the traversal descends through. */
  function Singles(vMatch: seq<bool>, t: Shape): nat
    requires Fits(t, |vMatch|)
  {
    if t.Leaf? || !AnyMatch(t, vMatch) then 0
    else if t.Single? then Singles(vMatch, t.child) + 1
    else Singles(vMatch, t.left) + Singles(vMatch, t.right)
  }

  /** The size guarantees: N hashes, at most one per transaction; and exactly 2N - 1 bits plus one per single child. */
  lemma {:induction false} SizeBounds(vtx: seq<Hash>, vMatch: seq<bool>, t: Shape)
    requires |vtx| == |vMatch| && Fits(t, |vtx|)
    ensures |Hashes(vtx, vMatch, t)| <= |Leaves(t)|
    ensures |Bits(vMatch, t)| == 2 * |Hashes(vtx, vMatch, t)| - 1 + Singles(vMatch, t)
  {
    if !t.Leaf? && AnyMatch(t, vMatch) {
      if t.Single? {
        SizeBounds(vtx, vMatch, t.child);
      } else {
        SizeBounds(vtx, vMatch, t.left);
        SizeBounds(vtx, vMatch, t.right);
      }
    }
  }

  lemma PairBound(a: nat, b: nat, h: nat, m: nat, n: nat)
    requires h > 0 && a + b > 0 && m <= 1 + a * (h - 1) && n <= 1 + b * (h - 1)
    ensures m + n <= 1 + (a + b) * h
  {
    assert (a + b) * h == a * (h - 1) + b * (h - 1) + a + b;
  }

  lemma ProductGrows(m: nat, d: nat, h: nat)
    requires d <= h
    ensures m * d <= m * h
  {
  }

  /** N is at most 1 + matched * height. */
  lemma {:induction false} HashBound(vtx: seq<Hash>, vMatch: seq<bool>, t: Shape, h: nat)
    requires |vtx| == |vMatch| && Fits(t, |vtx|) && Depth(t) <= h
    ensures |Hashes(vtx, vMatch, t)| <= 1 + |Selected(vtx, vMatch, t)| * h
    ensures AnyMatch(t, vMatch) <==> |Selected(vtx, vMatch, t)| > 0
    decreases t
  {
    if !AnyMatch(t, vMatch) {
      NothingSelected(vtx, vMatch, t);
    } else if t.Single? {
      HashBound(vtx, vMatch, t.child, h - 1);
      ProductGrows(|Selected(vtx, vMatch, t)|, h - 1, h);
    } else if t.Pair? {
      HashBound(vtx, vMatch, t.left, h - 1);
      HashBound(vtx, vMatch, t.right, h - 1);
      PairBound(|Selected(vtx, vMatch, t.left)|, |Selected(vtx, vMatch, t.right)|, h,
                |Hashes(vtx, vMatch, t.left)|, |Hashes(vtx, vMatch, t.right)|);
    }
  }

  // ----- extracting -----

  /** nBitsUsed, nHashUsed, vMatch and fBad. */
  datatype Cursor = Cursor(bit: nat, hash: nat, matches: seq<Hash>, bad: bool)

  /** TraverseAndExtract. */
  function Extract(vBits: seq<bool>, vHash: seq<Hash>, t: Shape, c: Cursor): (Hash, Cursor)
    decreases t
  {
    if c.bit >= |vBits| then (Zero, c.(bad := true))
    else
      var parent := vBits[c.bit];
      var c1 := c.(bit := c.bit + 1);
      if t.Leaf? || !parent then
        if c.hash >= |vHash| then (Zero, c1.(bad := true))
        else
          var h := vHash[c.hash];
          (h, c1.(hash := c.hash + 1, matches := if t.Leaf? && parent then c.matches + [h] else c.matches))
      else if t.Single? then
        var (left, c2) := Extract(vBits, vHash, t.child, c1);
        (Inner(left, left), c2)
      else
        var (left, c2) := Extract(vBits, vHash, t.left, c1);
        var (right, c3) := Extract(vBits, vHash, t.right, c2);
        (Inner(left, right), c3)
  }

  lemma {:induction false} ExtractKeepsBad(vBits: seq<bool>, vHash: seq<Hash>, t: Shape, c: Cursor)
    requires c.bad
    ensures Extract(vBits, vHash, t, c).1.bad
    decreases t
  {
    if c.bit < |vBits| && vBits[c.bit] {
      var c1 := c.(bit := c.bit + 1);
      if t.Single? {
        ExtractKeepsBad(vBits, vHash, t.child, c1);
      } else if t.Pair? {
        ExtractKeepsBad(vBits, vHash, t.left, c1);
        ExtractKeepsBad(vBits, vHash, t.right, Extract(vBits, vHash, t.left, c1).1);
      }
    }
  }

  /**
   Soundness under a node: whatever the bits and hashes are, if extraction is not
   bad and computes the node's true hash, the matches are true leaves, in order.
   */
  lemma {:induction false} ExtractSound(vBits: seq<bool>, vHash: seq<Hash>, vtx: seq<Hash>, t: Shape, c: Cursor)
    returns (keep: seq<bool>)
    requires Fits(t, |vtx|)
    requires var (h, r) := Extract(vBits, vHash, t, c); !r.bad && h == HashOf(vtx, t)
    ensures |keep| == |Leaves(t)| && forall i :: 0 <= i < |Leaves(t)| ==> Leaves(t)[i] < |vtx|
    ensures Extract(vBits, vHash, t, c).1.matches == c.matches + Kept(vtx, Leaves(t), keep)
    decreases t
  {
    FitsLeaves(t, |vtx|);
    var parent := vBits[c.bit];
    var c1 := c.(bit := c.bit + 1);
    if t.Leaf? {
      keep := [parent];
      assert Leaves(t)[..0] == [] && keep[..0] == [];
    } else if !parent {
      keep := seq(|Leaves(t)|, i => false);
      KeptNothing(vtx, Leaves(t), keep);
    } else if t.Single? {
      keep := ExtractSound(vBits, vHash, vtx, t.child, c1);
    } else {
      var (left, c2) := Extract(vBits, vHash, t.left, c1);
      if c2.bad {
        ExtractKeepsBad(vBits, vHash, t.right, c2);
      }
      var x := ExtractSound(vBits, vHash, vtx, t.left, c1);
      var y := ExtractSound(vBits, vHash, vtx, t.right, c2);
      KeptConcat(vtx, Leaves(t.left), Leaves(t.right), x, y);
      keep := x + y;
    }
  }

  lemma {:induction false} KeptNothing(vtx: seq<Hash>, leaves: seq<nat>, keep: seq<bool>)
    requires |leaves| == |keep| && forall i :: 0 <= i < |leaves| ==> leaves[i] < |vtx|
    requires forall i :: 0 <= i < |keep| ==> !keep[i]
    ensures Kept(vtx, leaves, keep) == []
    decreases |leaves|
  {
    if leaves != [] {
      KeptNothing(vtx, leaves[..|leaves| - 1], keep[..|leaves| - 1]);
    }
  }

  /** s continues with part at position i. */
  ghost predicate ContinuesWith<T>(s: seq<T>, i: nat, part: seq<T>) {
    i + |part| <= |s| && forall k {:trigger part[k]} :: 0 <= k < |part| ==> s[i + k] == part[k]
  }

  lemma ContinuesParts<T>(s: seq<T>, i: nat, a: seq<T>, b: seq<T>)
    requires ContinuesWith(s, i, a + b)
    ensures ContinuesWith(s, i, a) && ContinuesWith(s, i + |a|, b)
    ensures |a| > 0 ==> s[i] == a[0]
  {
    assert forall k :: 0 <= k < |a| ==> (a + b)[k] == a[k];
    assert forall k :: 0 <= k < |b| ==> (a + b)[|a| + k] == b[k];
  }

  /** What extraction finds where a node was built. */
  function AfterBuilt(vtx: seq<Hash>, vMatch: seq<bool>, t: Shape, c: Cursor): (Hash, Cursor)
    requires |vtx| == |vMatch| && Fits(t, |vtx|)
  {
    (HashOf(vtx, t), Cursor(c.bit + |Bits(vMatch, t)|, c.hash + |Hashes(vtx, vMatch, t)|,
                            c.matches + Selected(vtx, vMatch, t), c.bad))
  }

  lemma {:induction false} BuiltTip(vBits: seq<bool>, vHash: seq<Hash>, vtx: seq<Hash>, vMatch: seq<bool>, t: Shape,
                                    c: Cursor)
    requires |vtx| == |vMatch| && Fits(t, |vtx|) && (t.Leaf? || !AnyMatch(t, vMatch))
    requires c.bit < |vBits| && vBits[c.bit] == AnyMatch(t, vMatch) && c.hash < |vHash|
    requires vHash[c.hash] == HashOf(vtx, t)
    ensures Extract(vBits, vHash, t, c) == AfterBuilt(vtx, vMatch, t, c)
  {
    if !AnyMatch(t, vMatch) {
      NothingSelected(vtx, vMatch, t);
      assert c.matches + [] == c.matches;
    }
  }

  lemma {:induction false} BuiltSingle(vBits: seq<bool>, vHash: seq<Hash>, vtx: seq<Hash>, vMatch: seq<bool>, t: Shape,
                                       c: Cursor, c1: Cursor)
    requires |vtx| == |vMatch| && Fits(t, |vtx|) && t.Single? && AnyMatch(t, vMatch)
    requires c.bit < |vBits| && vBits[c.bit] && c1 == c.(bit := c.bit + 1)
    requires Extract(vBits, vHash, t.child, c1) == AfterBuilt(vtx, vMatch, t.child, c1)
    ensures Extract(vBits, vHash, t, c) == AfterBuilt(vtx, vMatch, t, c)
  {
  }

  lemma {:induction false} BuiltPair(vBits: seq<bool>, vHash: seq<Hash>, vtx: seq<Hash>, vMatch: seq<bool>, t: Shape,
                                     c: Cursor, c1: Cursor, c2: Cursor)
    requires |vtx| == |vMatch| && Fits(t, |vtx|) && t.Pair? && AnyMatch(t, vMatch)
    requires c.bit < |vBits| && vBits[c.bit] && c1 == c.(bit := c.bit + 1)
    requires Extract(vBits, vHash, t.left, c1) == AfterBuilt(vtx, vMatch, t.left, c1)
    requires c2 == AfterBuilt(vtx, vMatch, t.left, c1).1
    requires Extract(vBits, vHash, t.right, c2) == AfterBuilt(vtx, vMatch, t.right, c2)
    ensures Extract(vBits, vHash, t, c) == AfterBuilt(vtx, vMatch, t, c)
  {
    var l, r := Selected(vtx, vMatch, t.left), Selected(vtx, vMatch, t.right);
    assert c.matches + (l + r) == (c.matches + l) + r;
  }

  /** Completeness under a node: extraction reads back what building wrote. */
  lemma {:induction false} ExtractBuilt(vBits: seq<bool>, vHash: seq<Hash>, vtx: seq<Hash>, vMatch: seq<bool>, t: Shape,
                                        c: Cursor)
    requires |vtx| == |vMatch| && Fits(t, |vtx|)
    requires ContinuesWith(vBits, c.bit, Bits(vMatch, t)) && ContinuesWith(vHash, c.hash, Hashes(vtx, vMatch, t))
    ensures Extract(vBits, vHash, t, c) == AfterBuilt(vtx, vMatch, t, c)
    decreases t
  {
    var bits, hashes := Bits(vMatch, t), Hashes(vtx, vMatch, t);
    var parent := AnyMatch(t, vMatch);
    assert vBits[c.bit + 0] == bits[0] == parent;
    var c1 := c.(bit := c.bit + 1);
    if t.Leaf? || !parent {
      assert vHash[c.hash + 0] == hashes[0];
      BuiltTip(vBits, vHash, vtx, vMatch, t, c);
    } else if t.Single? {
      ContinuesParts(vBits, c.bit, [parent], Bits(vMatch, t.child));
      ExtractBuilt(vBits, vHash, vtx, vMatch, t.child, c1);
      BuiltSingle(vBits, vHash, vtx, vMatch, t, c, c1);
    } else {
      ContinuesParts(vBits, c.bit, [parent], Bits(vMatch, t.left) + Bits(vMatch, t.right));
      ContinuesParts(vBits, c1.bit, Bits(vMatch, t.left), Bits(vMatch, t.right));
      ContinuesParts(vHash, c.hash, Hashes(vtx, vMatch, t.left), Hashes(vtx, vMatch, t.right));
      var c2 := AfterBuilt(vtx, vMatch, t.left, c1).1;
      ExtractBuilt(vBits, vHash, vtx, vMatch, t.left, c1);
      ExtractBuilt(vBits, vHash, vtx, vMatch, t.right, c2);
      BuiltPair(vBits, vHash, vtx, vMatch, t, c, c1, c2);
    }
  }

  // ----- the whole tree -----

  /** The top node of the tree over n transactions. */
  function Top(n: nat): Shape
    requires n > 0
  {
    ShapeAt(n, TreeHeight(n), 0)
  }

  lemma {:induction false} ShiftLeftZero(n: nat)
    ensures ShiftLeft(0, n) == 0
  {
    if n > 0 {
      ShiftLeftZero(n - 1);
    }
  }

  lemma TopLeaves(n: nat)
    requires n > 0
    ensures Fits(Top(n), n) && Leaves(Top(n)) == Interval(0, n)
  {
    var h := TreeHeight(n);
    ShapeFits(n, h, 0);
    LeavesAreInterval(n, h, 0);
    ShiftLeftZero(h);
    WidthByShift(n, h, 1);
  }

  lemma TopHash(vtx: seq<Hash>)
    requires vtx != []
    ensures Fits(Top(|vtx|), |vtx|) && HashOf(vtx, Top(|vtx|)) == Root(vtx)
  {
    RootIsCalcHash(vtx);
    CalcHashIsHashOf(vtx, TreeHeight(|vtx|), 0);
  }

  lemma TopSelected(vtx: seq<Hash>, vMatch: seq<bool>)
    requires 0 < |vtx| == |vMatch|
    ensures Fits(Top(|vtx|), |vtx|) && Selected(vtx, vMatch, Top(|vtx|)) == Masked(vtx, vMatch)
  {
    var t := Top(|vtx|);
    TopLeaves(|vtx|);
    SelectedIsKept(vtx, vMatch, t);
    assert MaskOf(Leaves(t), vMatch) == vMatch;
  }

  lemma {:induction false} ShapeDepth(n: nat, height: nat, pos: nat)
    requires pos < TreeWidth(n, height)
    ensures Depth(ShapeAt(n, height, pos)) == height
    decreases height
  {
    if height > 0 {
      ShapeDepth(n, height - 1, pos * 2);
      if pos * 2 + 1 < TreeWidth(n, height - 1) {
        ShapeDepth(n, height - 1, pos * 2 + 1);
      }
    }
  }

  /** The documented bounds on N, the number of stored hashes. */
  lemma StoredHashes(vtx: seq<Hash>, vMatch: seq<bool>)
    requires 0 < |vtx| == |vMatch|
    ensures Fits(Top(|vtx|), |vtx|)
    ensures |Hashes(vtx, vMatch, Top(|vtx|))| <= |vtx|
    ensures |Hashes(vtx, vMatch, Top(|vtx|))| <= 1 + |Masked(vtx, vMatch)| * TreeHeight(|vtx|)
  {
    var t := Top(|vtx|);
    TopSelected(vtx, vMatch);
    TopLeaves(|vtx|);
    SizeBounds(vtx, vMatch, t);
    ShapeDepth(|vtx|, TreeHeight(|vtx|), 0);
    HashBound(vtx, vMatch, t, TreeHeight(|vtx|));
  }

  // ----- flag bits -----

  /** The last node of a level has a match under it. */
  ghost predicate LastMatched(n: nat, height: nat, vMatch: seq<bool>)
    requires 0 < n == |vMatch|
  {
    exists p :: ShiftLeft(TreeWidth(n, height) - 1, height) <= p < n && vMatch[p]
  }

  /** The levels up to height whose last node has a single child and a match under it. */
  ghost function OddLevels(n: nat, height: nat, vMatch: seq<bool>): nat
    requires 0 < n == |vMatch|
  {
    if height == 0 then 0
    else OddLevels(n, height - 1, vMatch) +
         (if TreeWidth(n, height - 1) % 2 == 1 && LastMatched(n, height, vMatch) then 1 else 0)
  }

  /** A node has a match exactly if one of the positions in its range does. */
  lemma MatchInRange(n: nat, height: nat, pos: nat, vMatch: seq<bool>)
    requires n == |vMatch| && pos < TreeWidth(n, height)
    ensures Fits(ShapeAt(n, height, pos), n)
    ensures AnyMatch(ShapeAt(n, height, pos), vMatch) <==>
            exists p :: ShiftLeft(pos, height) <= p < Min(ShiftLeft(pos + 1, height), n) && vMatch[p]
  {
    var t := ShapeAt(n, height, pos);
    ShapeFits(n, height, pos);
    AnyMatchLeaf(t, vMatch);
    LeavesAreInterval(n, height, pos);
    var low, high := ShiftLeft(pos, height), Min(ShiftLeft(pos + 1, height), n);
    forall p | low <= p < high ensures p in Leaves(t) {
      assert Leaves(t)[p - low] == p;
    }
  }

  lemma LastMatch(n: nat, height: nat, pos: nat, vMatch: seq<bool>)
    requires 0 < n == |vMatch| && pos + 1 == TreeWidth(n, height)
    ensures Fits(ShapeAt(n, height, pos), n)
    ensures AnyMatch(ShapeAt(n, height, pos), vMatch) <==> LastMatched(n, height, vMatch)
  {
    MatchInRange(n, height, pos, vMatch);
    WidthByShift(n, height, pos + 1);
  }

  lemma {:induction false} InnerHasNoSingles(n: nat, height: nat, pos: nat, vMatch: seq<bool>)
    requires n == |vMatch| && pos + 1 < TreeWidth(n, height)
    ensures Fits(ShapeAt(n, height, pos), n) && Singles(vMatch, ShapeAt(n, height, pos)) == 0
    decreases height
  {
    ShapeFits(n, height, pos);
    if height > 0 {
      InnerHasNoSingles(n, height - 1, pos * 2, vMatch);
      InnerHasNoSingles(n, height - 1, pos * 2 + 1, vMatch);
    }
  }

  /** Matches after the last node of a level are matches after the last node of the level above. */
  lemma LastMatchedAbove(n: nat, height: nat, vMatch: seq<bool>, last: nat, below: nat)
    requires 0 < n == |vMatch| && height > 0
    requires last + 1 == TreeWidth(n, height) && below + 1 == TreeWidth(n, height - 1)
    requires LastMatched(n, height - 1, vMatch)
    ensures LastMatched(n, height, vMatch)
  {
    ShiftLeftMonotone(last * 2, below, height - 1);
  }

  lemma {:induction false} NoOddLevels(n: nat, height: nat, vMatch: seq<bool>)
    requires 0 < n == |vMatch| && !LastMatched(n, height, vMatch)
    ensures OddLevels(n, height, vMatch) == 0
    decreases height
  {
    if height > 0 {
      if LastMatched(n, height - 1, vMatch) {
        LastMatchedAbove(n, height, vMatch, TreeWidth(n, height) - 1, TreeWidth(n, height - 1) - 1);
      }
      NoOddLevels(n, height - 1, vMatch);
    }
  }

  lemma {:induction false} SinglesAreOddLevels(n: nat, height: nat, last: nat, vMatch: seq<bool>)
    requires 0 < n == |vMatch| && last + 1 == TreeWidth(n, height)
    ensures Fits(ShapeAt(n, height, last), n)
    ensures Singles(vMatch, ShapeAt(n, height, last)) == OddLevels(n, height, vMatch)
    decreases height
  {
    LastMatch(n, height, last, vMatch);
    if height == 0 {
    } else if !LastMatched(n, height, vMatch) {
      NoOddLevels(n, height, vMatch);
    } else if last * 2 + 1 < TreeWidth(n, height - 1) {
      InnerHasNoSingles(n, height - 1, last * 2, vMatch);
      SinglesAreOddLevels(n, height - 1, last * 2 + 1, vMatch);
    } else {
      SinglesAreOddLevels(n, height - 1, last * 2, vMatch);
    }
  }

  /**
   The documented bound of 2N - 1 flag bits holds exactly if no level of odd
   width has a match under the node above its end; otherwise each such level
   adds one bit.
   */
  lemma FlagBits(vtx: seq<Hash>, vMatch: seq<bool>)
    requires 0 < |vtx| == |vMatch|
    ensures Fits(Top(|vtx|), |vtx|)
    ensures var n := |Hashes(vtx, vMatch, Top(|vtx|))|;
            var extra := OddLevels(|vtx|, TreeHeight(|vtx|), vMatch);
            |Bits(vMatch, Top(|vtx|))| == 2 * n - 1 + extra &&
            (|Bits(vMatch, Top(|vtx|))| <= 2 * n - 1 <==> extra == 0)
  {
    ShapeFits(|vtx|, TreeHeight(|vtx|), 0);
    SizeBounds(vtx, vMatch, Top(|vtx|));
    SinglesAreOddLevels(|vtx|, TreeHeight(|vtx|), 0, vMatch);
  }

  /** With three transactions and the last one matched, N is 2 and there are four bits. */
  lemma TooManyFlagBits(a: Hash, b: Hash, c: Hash)
    ensures TreeHeight(3) == 2 && Fits(Top(3), 3)
    ensures |Hashes([a, b, c], [false, false, true], Top(3))| == 2
    ensures |Bits([false, false, true], Top(3))| == 4
  {
    assert TreeWidth(3, 0) == 3 && TreeWidth(3, 1) == 2 && TreeWidth(3, 2) == 1;
    assert HeightFrom(3, 2) == 2 && HeightFrom(3, 1) == 2;
    var pair := Pair(Leaf(0), Leaf(1));
    var last := Single(Leaf(2));
    assert ShapeAt(3, 1, 0) == pair && ShapeAt(3, 1, 1) == last;
    assert Top(3) == Pair(pair, last);
    var vMatch := [false, false, true];
    assert !AnyMatch(pair, vMatch) && AnyMatch(Leaf(2), vMatch) && AnyMatch(last, vMatch);
    assert Bits(vMatch, pair) == [false] && Bits(vMatch, last) == [true] + [true];
    assert |Hashes([a, b, c], vMatch, pair)| == 1 && |Hashes([a, b, c], vMatch, last)| == 1;
  }

  // ----- ExtractMatches -----

  /** The root or zero, the matches, and the flag for bad data. */
  datatype Extraction = Extraction(root: Hash, matches: seq<Hash>, bad: bool)

  function Extracted(n: nat, vBits: seq<bool>, vHash: seq<Hash>, bad: bool): Extraction {
    if n == 0 || n > MAX_BLOCK_SIZE / 60 || |vHash| > n || |vBits| < |vHash| then Extraction(Zero, [], bad)
    else
      var (root, c) := Extract(vBits, vHash, Top(n), Cursor(0, 0, [], bad));
      var ok := !c.bad && (c.bit + 7) / 8 == (|vBits| + 7) / 8 && c.hash == |vHash|;
      Extraction(if ok then root else Zero, c.matches, c.bad)
  }

  /**
   Soundness: whatever bits and hashes a peer sends, if the root extracted is
   that of a list of as many transactions, the matches are transactions of
   that list, at strictly increasing positions.
   */
  lemma {:induction false} ExtractionIsSound(vBits: seq<bool>, vHash: seq<Hash>, bad: bool, vtx: seq<Hash>)
    returns (at: seq<nat>)
    requires Extracted(|vtx|, vBits, vHash, bad).root == Root(vtx) != Zero
    ensures |at| == |Extracted(|vtx|, vBits, vHash, bad).matches|
    ensures forall i :: 0 <= i < |at| ==> at[i] < |vtx| && Extracted(|vtx|, vBits, vHash, bad).matches[i] == vtx[at[i]]
    ensures forall i, j :: 0 <= i < j < |at| ==> at[i] < at[j]
  {
    var n := |vtx|;
    TopHash(vtx);
    TopLeaves(n);
    var start := Cursor(0, 0, [], bad);
    var keep := ExtractSound(vBits, vHash, vtx, Top(n), start);
    at := KeptPositions(vtx, n, keep);
    assert [] + Masked(vtx, keep) == Masked(vtx, keep);
  }

  // ----- packing the flag bits into bytes -----

  type byte = bv8

  /** 1 << k */
  function BitMask(k: nat): byte
    requires k < 8
  {
    if k == 0 then 1 else if k == 1 then 2 else if k == 2 then 4 else if k == 3 then 8
    else if k == 4 then 16 else if k == 5 then 32 else if k == 6 then 64 else 128
  }

  predicate HasBit(b: byte, k: nat)
    requires k < 8
  {
    b & BitMask(k) != 0
  }

  /** b | (on << k) */
  function OrBit(b: byte, k: nat, on: bool): byte
    requires k < 8
  {
    if on then b | BitMask(k) else b
  }

  lemma SetBit(b: byte, k: nat, j: nat, on: bool)
    requires k < 8 && j < 8
    ensures HasBit(OrBit(b, k, on), j) <==> (j == k && on) || HasBit(b, j)
  {
    DisjointMasks(k, j);
    Distribute(b, BitMask(k), BitMask(j));
  }

  lemma Distribute(b: byte, x: byte, y: byte)
    ensures x & y == 0 ==> (b | x) & y == b & y
    ensures x == y != 0 ==> (b | x) & y != 0
  {
    assert (b | x) & y == (b & y) | (x & y);
  }

  lemma DisjointMasks(k: nat, j: nat)
    requires k < 8 && j < 8
    ensures BitMask(k) & BitMask(j) == if j == k then BitMask(k) else 0
    ensures BitMask(k) != 0
  {
  }

  /** The bits of a list of bytes, least significant first. */
  function Unpacked(vBytes: seq<byte>): (r: seq<bool>)
    ensures |r| == |vBytes| * 8
    ensures forall p :: 0 <= p < |r| ==> r[p] == HasBit(vBytes[p / 8], p % 8)
  {
    seq(|vBytes| * 8, p requires 0 <= p < |vBytes| * 8 => HasBit(vBytes[p / 8], p % 8))
  }

  /** Bits padded to whole bytes. */
  function Padded(vBits: seq<bool>): (r: seq<bool>)
    ensures |r| == (|vBits| + 7) / 8 * 8 && vBits <= r
  {
    vBits + seq((|vBits| + 7) / 8 * 8 - |vBits|, _ => false)
  }

  /** One bit more has been or-ed into its byte. */
  lemma PackStep(vBits: seq<bool>, p: nat, was: seq<byte>, now: seq<byte>)
    requires p < |vBits| && |was| == (|vBits| + 7) / 8
    requires now == was[p / 8 := OrBit(was[p / 8], p % 8, vBits[p])]
    requires forall q :: 0 <= q < |was| * 8 ==> (Unpacked(was)[q] <==> q < p && vBits[q])
    ensures forall q :: 0 <= q < |now| * 8 ==> (Unpacked(now)[q] <==> q < p + 1 && vBits[q])
  {
    forall q | 0 <= q < |now| * 8 ensures Unpacked(now)[q] <==> q < p + 1 && vBits[q] {
      assert Unpacked(was)[q] <==> q < p && vBits[q];
      PackBit(vBits[p], p, q, was, now);
    }
  }

  lemma PackBit(on: bool, p: nat, q: nat, was: seq<byte>, now: seq<byte>)
    requires p < |was| * 8 && q < |was| * 8 && now == was[p / 8 := OrBit(was[p / 8], p % 8, on)]
    ensures Unpacked(now)[q] <==> (p == q && on) || Unpacked(was)[q]
  {
    if q / 8 == p / 8 {
      SetBit(was[q / 8], p % 8, q % 8, on);
    }
  }

  method Pack(vBits: seq<bool>) returns (vBytes: seq<byte>)
    ensures Unpacked(vBytes) == Padded(vBits)
  {
    vBytes := seq((|vBits| + 7) / 8, _ => 0);
    assert forall k :: 0 <= k < 8 ==> !HasBit(0, k);
    for p := 0 to |vBits|
      invariant |vBytes| == (|vBits| + 7) / 8
      invariant forall q :: 0 <= q < |vBytes| * 8 ==> (Unpacked(vBytes)[q] <==> q < p && vBits[q])
    {
      ghost var was := vBytes;
      vBytes := vBytes[p / 8 := OrBit(vBytes[p / 8], p % 8, vBits[p])];
      PackStep(vBits, p, was, vBytes);
    }
  }

  method Unpack(vBytes: seq<byte>) returns (vBits: seq<bool>)
    ensures vBits == Unpacked(vBytes)
  {
    vBits := seq(|vBytes| * 8, _ => false);
    for p := 0 to |vBits|
      invariant |vBits| == |vBytes| * 8
      invariant forall q :: 0 <= q < p ==> vBits[q] == HasBit(vBytes[q / 8], q % 8)
    {
      vBits := vBits[p := HasBit(vBytes[p / 8], p % 8)];
    }
  }

  /**
   Completeness: from the bits (padded or not) and hashes built for a mask, the
   true root and exactly the masked transactions are extracted.
   */
  lemma ExtractionIsComplete(vtx: seq<Hash>, vMatch: seq<bool>, vBits: seq<bool>)
    requires 0 < |vtx| == |vMatch| && |vtx| <= MAX_BLOCK_SIZE / 60
    requires Fits(Top(|vtx|), |vtx|)
    requires vBits == Bits(vMatch, Top(|vtx|)) || vBits == Padded(Bits(vMatch, Top(|vtx|)))
    ensures Extracted(|vtx|, vBits, Hashes(vtx, vMatch, Top(|vtx|)), false) ==
            Extraction(Root(vtx), Masked(vtx, vMatch), false)
  {
    var t := Top(|vtx|);
    var vHash := Hashes(vtx, vMatch, t);
    TopHash(vtx);
    TopLeaves(|vtx|);
    TopSelected(vtx, vMatch);
    SizeBounds(vtx, vMatch, t);
    var start := Cursor(0, 0, [], false);
    ExtractBuilt(vBits, vHash, vtx, vMatch, t, start);
    assert [] + Masked(vtx, vMatch) == Masked(vtx, vMatch);
  }

  lemma Appended<T>(s: seq<T>, first: seq<T>, left: seq<T>, right: seq<T>)
    ensures s + first + left + right == s + (first + (left + right))
    ensures s + first + left == s + (first + left)
  {
  }

  class PartialMerkleTree {
    var nTransactions: nat
    var vBits: seq<bool>
    var vHash: seq<Hash>
    var fBad: bool

    method Height() returns (nHeight: nat)
      ensures nHeight == TreeHeight(nTransactions)
    {
      nHeight := 0;
      WidthClosedForm(nTransactions, 0);
      while CalcTreeWidth(nTransactions, nHeight) > 1
        invariant HeightFrom(nTransactions, nHeight) == TreeHeight(nTransactions)
        invariant CalcTreeWidth(nTransactions, nHeight) == TreeWidth(nTransactions, nHeight)
        decreases TreeWidth(nTransactions, nHeight)
      {
        nHeight := nHeight + 1;
        WidthClosedForm(nTransactions, nHeight);
      }
    }

    /** Is a transaction below the node matched? */
    method ParentOfMatch(height: nat, pos: nat, vMatch: seq<bool>) returns (f: bool)
      requires |vMatch| == nTransactions && pos < TreeWidth(nTransactions, height)
      ensures Fits(ShapeAt(nTransactions, height, pos), |vMatch|)
      ensures f == AnyMatch(ShapeAt(nTransactions, height, pos), vMatch)
    {
      f := false;
      var p := ShiftLeft(pos, height);
      while p < ShiftLeft(pos + 1, height) && p < nTransactions
        invariant p >= ShiftLeft(pos, height)
        invariant f <==> exists q :: ShiftLeft(pos, height) <= q < p && q < nTransactions && vMatch[q]
        invariant p <= Min(ShiftLeft(pos + 1, height), nTransactions) || p == ShiftLeft(pos, height)
      {
        f := f || vMatch[p];
        p := p + 1;
      }
      MatchInRange(nTransactions, height, pos, vMatch);
    }

    /** Appends the bits and hashes of the node. */
    method TraverseAndBuild(height: nat, pos: nat, vTxid: seq<Hash>, vMatch: seq<bool>)
      requires |vTxid| == |vMatch| == nTransactions && pos < TreeWidth(nTransactions, height)
      modifies `vBits, `vHash
      ensures Fits(ShapeAt(nTransactions, height, pos), nTransactions)
      ensures vBits == old(vBits) + Bits(vMatch, ShapeAt(nTransactions, height, pos))
      ensures vHash == old(vHash) + Hashes(vTxid, vMatch, ShapeAt(nTransactions, height, pos))
      decreases height
    {
      ghost var t := ShapeAt(nTransactions, height, pos);
      ghost var bits, hashes := vBits, vHash;
      var fParentOfMatch := ParentOfMatch(height, pos, vMatch);
      vBits := vBits + [fParentOfMatch];
      if height == 0 || !fParentOfMatch {
        CalcHashIsHashOf(vTxid, height, pos);
        vHash := vHash + [CalcHash(vTxid, height, pos)];
      } else {
        WidthClosedForm(nTransactions, height - 1);
        TraverseAndBuild(height - 1, pos * 2, vTxid, vMatch);
        if pos * 2 + 1 < CalcTreeWidth(nTransactions, height - 1) {
          TraverseAndBuild(height - 1, pos * 2 + 1, vTxid, vMatch);
          Appended(bits, [true], Bits(vMatch, t.left), Bits(vMatch, t.right));
          Appended(hashes, [], Hashes(vTxid, vMatch, t.left), Hashes(vTxid, vMatch, t.right));
        } else {
          Appended(bits, [true], Bits(vMatch, t.child), []);
        }
      }
    }

    /** The tree over a non-empty block for a mask. */
    constructor (vTxid: seq<Hash>, vMatch: seq<bool>)
      requires 0 < |vTxid| == |vMatch|
      ensures nTransactions == |vTxid| && !fBad && Fits(Top(|vTxid|), |vTxid|)
      ensures vBits == Bits(vMatch, Top(|vTxid|)) && vHash == Hashes(vTxid, vMatch, Top(|vTxid|))
    {
      nTransactions, fBad, vBits, vHash := |vTxid|, false, [], [];
      new;
      var nHeight := Height();
      TraverseAndBuild(nHeight, 0, vTxid, vMatch);
    }

    constructor Empty()
      ensures nTransactions == 0 && vBits == [] && vHash == [] && fBad
    {
      nTransactions, fBad, vBits, vHash := 0, true, [], [];
    }

    method Write() returns (n: nat, hashes: seq<Hash>, vBytes: seq<byte>)
      ensures n == nTransactions && hashes == vHash && Unpacked(vBytes) == Padded(vBits)
    {
      n, hashes := nTransactions, vHash;
      vBytes := Pack(vBits);
    }

    method Read(n: nat, hashes: seq<Hash>, vBytes: seq<byte>)
      modifies this
      ensures nTransactions == n && vHash == hashes && vBits == Unpacked(vBytes) && !fBad
    {
      nTransactions, vHash := n, hashes;
      vBits := Unpack(vBytes);
      fBad := false;
    }

    method TraverseAndExtract(height: nat, pos: nat, bit: nat, hash: nat, matches: seq<Hash>)
      returns (h: Hash, nBitsUsed: nat, nHashUsed: nat, vMatch: seq<Hash>)
      requires pos < TreeWidth(nTransactions, height)
      modifies `fBad
      ensures (h, Cursor(nBitsUsed, nHashUsed, vMatch, fBad)) ==
              Extract(vBits, vHash, ShapeAt(nTransactions, height, pos), Cursor(bit, hash, matches, old(fBad)))
      decreases height
    {
      nBitsUsed, nHashUsed, vMatch := bit, hash, matches;
      if nBitsUsed >= |vBits| {
        fBad := true;
        return Zero, nBitsUsed, nHashUsed, vMatch;
      }
      var fParentOfMatch := vBits[nBitsUsed];
      nBitsUsed := nBitsUsed + 1;
      if height == 0 || !fParentOfMatch {
        if nHashUsed >= |vHash| {
          fBad := true;
          return Zero, nBitsUsed, nHashUsed, vMatch;
        }
        h := vHash[nHashUsed];
        nHashUsed := nHashUsed + 1;
        if height == 0 && fParentOfMatch {
          vMatch := vMatch + [h];
        }
      } else {
        WidthClosedForm(nTransactions, height - 1);
        var left, right;
        left, nBitsUsed, nHashUsed, vMatch := TraverseAndExtract(height - 1, pos * 2, nBitsUsed, nHashUsed, vMatch);
        if pos * 2 + 1 < CalcTreeWidth(nTransactions, height - 1) {
          right, nBitsUsed, nHashUsed, vMatch :=
            TraverseAndExtract(height - 1, pos * 2 + 1, nBitsUsed, nHashUsed, vMatch);
        } else {
          right := left;
        }
        h := Inner(left, right);
      }
    }

    method ExtractMatches() returns (root: Hash, vMatch: seq<Hash>)
      modifies `fBad
      ensures Extraction(root, vMatch, fBad) == Extracted(nTransactions, vBits, vHash, old(fBad))
    {
      vMatch := [];
      if nTransactions == 0 || nTransactions > MAX_BLOCK_SIZE / 60 || |vHash| > nTransactions || |vBits| < |vHash| {
        return Zero, vMatch;
      }
      var nHeight := Height();
      var nBitsUsed, nHashUsed;
      root, nBitsUsed, nHashUsed, vMatch := TraverseAndExtract(nHeight, 0, 0, 0, vMatch);
      if fBad || (nBitsUsed + 7) / 8 != (|vBits| + 7) / 8 || nHashUsed != |vHash| {
        root := Zero;
      }
    }
  }

  /** A block filtered by one node, sent as bytes, and extracted by another. */
  method SendAndExtract(vTxid: seq<Hash>, vMatch: seq<bool>) returns (root: Hash, matches: seq<Hash>)
    requires 0 < |vTxid| == |vMatch| && |vTxid| <= MAX_BLOCK_SIZE / 60
    ensures root == Root(vTxid) && matches == Masked(vTxid, vMatch)
  {
    var sent := new PartialMerkleTree(vTxid, vMatch);
    var n, hashes, vBytes := sent.Write();
    var received := new PartialMerkleTree.Empty();
    received.Read(n, hashes, vBytes);
    ExtractionIsComplete(vTxid, vMatch, received.vBits);
    root, matches := received.ExtractMatches();
  }
}
