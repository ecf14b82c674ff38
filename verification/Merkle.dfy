/**
 Merkle trees (core.cpp: BuildMerkleTree, GetMerkleBranch, CheckMerkleBranch;
 main.cpp and main.h: CalcHash, CalcTreeWidth).

 Hashes are terms, so hashing a pair is injective by construction.
 */
module Merkle {
  import opened Powers

  datatype Hash = Zero | Txid(id: nat) | Inner(left: Hash, right: Hash)

  /** One level up: neighbours are combined, a last odd one with itself. */
  function NextLevel(level: seq<Hash>): (r: seq<Hash>)
    ensures |r| == (|level| + 1) / 2
    ensures forall i :: 0 <= i < |r| ==> r[i] == Inner(level[2 * i], level[Min(2 * i + 1, |level| - 1)])
  {
    seq((|level| + 1) / 2, i requires 0 <= i < (|level| + 1) / 2 =>
      Inner(level[2 * i], level[Min(2 * i + 1, |level| - 1)]))
  }

  /** All levels, one after the other. */
  function Levels(level: seq<Hash>): (r: seq<Hash>)
    ensures level <= r
    decreases |level|
  {
    if |level| <= 1 then level else level + Levels(NextLevel(level))
  }

  function Root(level: seq<Hash>): Hash
    decreases |level|
  {
    if level == [] then Zero else if |level| == 1 then level[0] else Root(NextLevel(level))
  }

  lemma {:induction false} RootIsLast(level: seq<Hash>)
    requires level != []
    ensures Levels(level)[|Levels(level)| - 1] == Root(level)
    decreases |level|
  {
    if |level| > 1 {
      RootIsLast(NextLevel(level));
    }
  }

  /** The tree is built level by level in one array, whose last element is the root. */
  method BuildMerkleTree(vtx: seq<Hash>) returns (vMerkleTree: seq<Hash>, root: Hash)
    ensures vMerkleTree == Levels(vtx) && root == Root(vtx)
  {
    vMerkleTree := vtx;
    var j := 0;
    var nSize := |vtx|;
    ghost var done: seq<Hash>, level := [], vtx;
    while nSize > 1
      invariant j == |done| && nSize == |level| && vMerkleTree == done + level
      invariant done + Levels(level) == Levels(vtx) && Root(level) == Root(vtx)
      decreases nSize
    {
      LevelsStep(done, level);
      assert vMerkleTree[j..] == level;
      vMerkleTree := AppendLevel(vMerkleTree, j, nSize);
      done, level := done + level, NextLevel(level);
      j := j + nSize;
      nSize := (nSize + 1) / 2;
    }
    assert vMerkleTree == Levels(vtx);
    root := if vMerkleTree == [] then Zero else vMerkleTree[|vMerkleTree| - 1];
    if vtx != [] {
      RootIsLast(vtx);
    }
  }

  lemma LevelsStep(done: seq<Hash>, level: seq<Hash>)
    requires |level| > 1
    ensures done + Levels(level) == (done + level) + Levels(NextLevel(level))
  {
  }

  /** The inner loop: the level of nSize hashes at j gets its parents appended. */
  method AppendLevel(tree: seq<Hash>, j: nat, nSize: nat) returns (r: seq<Hash>)
    requires j + nSize == |tree| && nSize > 1
    ensures r == tree + NextLevel(tree[j..])
  {
    r := tree;
    ghost var next := NextLevel(tree[j..]);
    var i := 0;
    while i < nSize
      invariant i % 2 == 0 && 0 <= i <= nSize + 1
      invariant r == tree + next[..i / 2]
    {
      var i2 := Min(i + 1, nSize - 1);
      assert next[i / 2] == Inner(tree[j..][i], tree[j..][i2]);
      r := r + [Inner(r[j + i], r[j + i2])];
      assert next[..i / 2 + 1] == next[..i / 2] + [next[i / 2]];
      i := i + 2;
    }
    assert next[..|next|] == next;
  }

  // ----- authentication branches -----

  /** nIndex ^ 1. */
  function Sibling(i: nat): nat {
    if i % 2 == 0 then i + 1 else i - 1
  }

  function Branch(level: seq<Hash>, index: nat): seq<Hash>
    decreases |level|
  {
    if |level| <= 1 then []
    else [level[Min(Sibling(index), |level| - 1)]] + Branch(NextLevel(level), index / 2)
  }

  method GetMerkleBranch(vMerkleTree: seq<Hash>, vtx: seq<Hash>, nIndex: nat) returns (branch: seq<Hash>)
    requires vMerkleTree == Levels(vtx)
    ensures branch == Branch(vtx, nIndex)
  {
    branch := [];
    var j := 0;
    var index := nIndex;
    var nSize := |vtx|;
    ghost var done: seq<Hash>, level := [], vtx;
    while nSize > 1
      invariant j == |done| && nSize == |level| && vMerkleTree == done + Levels(level)
      invariant branch + Branch(level, index) == Branch(vtx, nIndex)
      decreases nSize
    {
      LevelsStep(done, level);
      BranchStep(branch, level, index);
      var i := Min(Sibling(index), nSize - 1);
      assert vMerkleTree[j + i] == level[i];
      branch := branch + [vMerkleTree[j + i]];
      index := index / 2;
      j := j + nSize;
      done, level := done + level, NextLevel(level);
      nSize := (nSize + 1) / 2;
    }
  }

  lemma BranchStep(branch: seq<Hash>, level: seq<Hash>, index: nat)
    requires |level| > 1
    ensures branch + Branch(level, index) ==
            (branch + [level[Min(Sibling(index), |level| - 1)]]) + Branch(NextLevel(level), index / 2)
  {
  }

  /** The index is a signed int; its last bit and its arithmetic shift are remainder and quotient rounded down. */
  function Climb(hash: Hash, branch: seq<Hash>, index: int): Hash
    decreases branch
  {
    if branch == [] then hash
    else Climb(if index % 2 == 1 then Inner(branch[0], hash) else Inner(hash, branch[0]), branch[1..], index / 2)
  }

  method CheckMerkleBranch(hash: Hash, vMerkleBranch: seq<Hash>, nIndex: int) returns (r: Hash)
    ensures r == if nIndex == -1 then Zero else Climb(hash, vMerkleBranch, nIndex)
  {
    if nIndex == -1 {
      return Zero;
    }
    r := hash;
    var index := nIndex;
    for i := 0 to |vMerkleBranch|
      invariant Climb(r, vMerkleBranch[i..], index) == Climb(hash, vMerkleBranch, nIndex)
    {
      assert vMerkleBranch[i..][1..] == vMerkleBranch[i + 1..];
      if index % 2 == 1 {
        r := Inner(vMerkleBranch[i], r);
      } else {
        r := Inner(r, vMerkleBranch[i]);
      }
      index := index / 2;
    }
  }

  /** Climbing from any leaf along its own branch gives the root. */
  lemma {:induction false} BranchLeadsToRoot(level: seq<Hash>, index: nat)
    requires index < |level|
    ensures Climb(level[index], Branch(level, index), index) == Root(level)
    decreases |level|
  {
    if |level| > 1 {
      var next := NextLevel(level);
      var sibling := level[Min(Sibling(index), |level| - 1)];
      var parent := if index % 2 == 1 then Inner(sibling, level[index]) else Inner(level[index], sibling);
      assert next[index / 2] == parent;
      assert Branch(level, index)[1..] == Branch(next, index / 2);
      BranchLeadsToRoot(next, index / 2);
    }
  }

  /** And only the leaf itself does: a branch authenticates its transaction. */
  lemma {:induction false} ClimbInjective(a: Hash, b: Hash, branch: seq<Hash>, index: int)
    requires Climb(a, branch, index) == Climb(b, branch, index)
    ensures a == b
    decreases branch
  {
    if branch != [] {
      var up := (h: Hash) => if index % 2 == 1 then Inner(branch[0], h) else Inner(h, branch[0]);
      ClimbInjective(up(a), up(b), branch[1..], index / 2);
    }
  }

  // ----- the recursive form -----

  /** x >> n */
  function ShiftRight(x: nat, n: nat): nat {
    if n == 0 then x else ShiftRight(x, n - 1) / 2
  }

  /** CalcTreeWidth: (nTransactions + (1 << height) - 1) >> height */
  function CalcTreeWidth(n: nat, height: nat): nat {
    ShiftRight(n + Pow2(height) - 1, height)
  }

  /** Each level is half as wide as the one below, rounded up. */
  function TreeWidth(n: nat, height: nat): (w: nat)
    ensures n > 0 ==> w > 0
  {
    if height == 0 then n else (TreeWidth(n, height - 1) + 1) / 2
  }

  lemma {:induction false} ShiftRightCarry(x: nat, n: nat)
    ensures ShiftRight(x + Pow2(n), n) == ShiftRight(x, n) + 1
    decreases n
  {
    if n > 0 {
      ShiftRightCarry(x, n - 1);
      ShiftRightCarry(x + Pow2(n - 1), n - 1);
    }
  }

  /** Iterated ceiling-halving has the closed form the program computes. */
  lemma {:induction false} WidthClosedForm(n: nat, height: nat)
    ensures CalcTreeWidth(n, height) == TreeWidth(n, height)
  {
    if height > 0 {
      WidthClosedForm(n, height - 1);
      ShiftRightCarry(n + Pow2(height - 1) - 1, height - 1);
    }
  }

  function LevelAt(vtx: seq<Hash>, height: nat): seq<Hash> {
    if height == 0 then vtx else NextLevel(LevelAt(vtx, height - 1))
  }

  /** CPartialMerkleTree::CalcHash. */
  function CalcHash(vtx: seq<Hash>, height: nat, pos: nat): Hash
    requires pos < TreeWidth(|vtx|, height)
    decreases height
  {
    if height == 0 then vtx[pos]
    else
      var left := CalcHash(vtx, height - 1, pos * 2);
      var right := if pos * 2 + 1 < TreeWidth(|vtx|, height - 1) then CalcHash(vtx, height - 1, pos * 2 + 1) else left;
      Inner(left, right)
  }

  /** One node of the next level from its one or two children. */
  lemma NodeOfLevel(vtx: seq<Hash>, below: seq<Hash>, height: nat, pos: nat, l: nat, r: nat)
    requires height > 0 && |below| == TreeWidth(|vtx|, height - 1) && pos < TreeWidth(|vtx|, height)
    requires l == pos * 2 && r == l + 1
    requires CalcHash(vtx, height - 1, l) == below[l]
    requires r < |below| ==> CalcHash(vtx, height - 1, r) == below[r]
    ensures CalcHash(vtx, height, pos) == NextLevel(below)[pos]
  {
    assert NextLevel(below)[pos] == Inner(below[2 * pos], below[Min(2 * pos + 1, |below| - 1)]);
  }

  /** A list of hashes is the level of the tree that the recursion computes. */
  ghost predicate IsLevel(vtx: seq<Hash>, height: nat, level: seq<Hash>) {
    |level| == TreeWidth(|vtx|, height) && forall pos :: 0 <= pos < |level| ==> CalcHash(vtx, height, pos) == level[pos]
  }

  lemma NextIsLevel(vtx: seq<Hash>, height: nat, below: seq<Hash>)
    requires height > 0 && IsLevel(vtx, height - 1, below)
    ensures IsLevel(vtx, height, NextLevel(below))
  {
    forall pos | 0 <= pos < TreeWidth(|vtx|, height) ensures CalcHash(vtx, height, pos) == NextLevel(below)[pos] {
      NodeOfLevel(vtx, below, height, pos, pos * 2, pos * 2 + 1);
    }
  }

  /** The recursion agrees with every level of the array. */
  lemma {:induction false} CalcHashIsLevel(vtx: seq<Hash>, height: nat)
    ensures IsLevel(vtx, height, LevelAt(vtx, height))
    decreases height
  {
    if height > 0 {
      CalcHashIsLevel(vtx, height - 1);
      NextIsLevel(vtx, height, LevelAt(vtx, height - 1));
    }
  }

  /** Where a level starts in the array. */
  function LevelStart(n: nat, height: nat): nat {
    if height == 0 then 0 else LevelStart(n, height - 1) + TreeWidth(n, height - 1)
  }

  /** The array from a level on is what building from that level gives. */
  lemma {:induction false} LevelsFrom(vtx: seq<Hash>, height: nat)
    requires height <= TreeHeight(|vtx|)
    ensures LevelStart(|vtx|, height) <= |Levels(vtx)|
    ensures Levels(vtx)[LevelStart(|vtx|, height)..] == Levels(LevelAt(vtx, height))
  {
    if height > 0 {
      var below := LevelAt(vtx, height - 1);
      var next := Levels(NextLevel(below));
      LevelsFrom(vtx, height - 1);
      CalcHashIsLevel(vtx, height - 1);
      AfterSlice(Levels(vtx), LevelStart(|vtx|, height - 1), below, next);
    }
  }

  lemma AfterSlice(all: seq<Hash>, start: nat, level: seq<Hash>, more: seq<Hash>)
    requires start <= |all| && all[start..] == level + more
    ensures start + |level| <= |all| && all[start + |level|..] == more
  {
    assert all[start + |level|..] == all[start..][|level|..];
  }

  lemma SliceOf(all: seq<Hash>, start: nat, level: seq<Hash>, more: seq<Hash>, width: nat)
    requires start <= |all| && all[start..] == more && level <= more && |level| == width
    ensures start + width <= |all| && all[start..start + width] == level
  {
    assert all[start..start + width] == more[..width];
  }

  /**
   The slice of the array from the summed widths below a level, as long as the
   level is wide, is the level, whose hashes are those of the recursion.
   */
  lemma {:induction false} LevelSlice(vtx: seq<Hash>, height: nat)
    requires height <= TreeHeight(|vtx|)
    ensures var start, width := LevelStart(|vtx|, height), TreeWidth(|vtx|, height);
            && start + width <= |Levels(vtx)|
            && Levels(vtx)[start..start + width] == LevelAt(vtx, height)
            && IsLevel(vtx, height, LevelAt(vtx, height))
  {
    var level := LevelAt(vtx, height);
    LevelsFrom(vtx, height);
    CalcHashIsLevel(vtx, height);
    SliceOf(Levels(vtx), LevelStart(|vtx|, height), level, Levels(level), TreeWidth(|vtx|, height));
  }

  /** The height of the tree: the first level of width one. */
  function TreeHeight(n: nat): (h: nat) {
    HeightFrom(n, 0)
  }

  function HeightFrom(n: nat, height: nat): (h: nat)
    ensures h >= height && TreeWidth(n, h) <= 1
    ensures forall k :: height <= k < h ==> TreeWidth(n, k) > 1
    decreases TreeWidth(n, height)
  {
    if TreeWidth(n, height) <= 1 then height else HeightFrom(n, height + 1)
  }

  /** The root of the array is the hash of the top node. */
  lemma {:induction false} RootAtTop(vtx: seq<Hash>, height: nat)
    requires height <= TreeHeight(|vtx|)
    ensures Root(LevelAt(vtx, height)) == Root(vtx)
  {
    if height > 0 {
      RootAtTop(vtx, height - 1);
      CalcHashIsLevel(vtx, height - 1);
    }
  }

  lemma RootIsCalcHash(vtx: seq<Hash>)
    requires vtx != []
    ensures TreeWidth(|vtx|, TreeHeight(|vtx|)) == 1
    ensures CalcHash(vtx, TreeHeight(|vtx|), 0) == Root(vtx)
  {
    var h := TreeHeight(|vtx|);
    CalcHashIsLevel(vtx, h);
    RootAtTop(vtx, h);
  }
}
