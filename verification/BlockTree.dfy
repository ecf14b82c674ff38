/**
 The tree of block index entries and indexed chains through it (main.h and
 main.cpp: CBlockIndex, CChain, SetTip, GetLocator, FindFork).

 Entries are named by their address, 0 being the null pointer; a block hash
 and the entry it finds in mapBlockIndex are the same name.
 */
module BlockTree {
  import opened Powers

  type Ptr = nat

  const NULL: Ptr := 0

  datatype Entry = Entry(pprev: Ptr, nHeight: nat, nChainWork: nat, nSequenceId: nat)

  type Tree = map<Ptr, Entry>

  /** Every entry hangs one above its predecessor. */
  ghost predicate TreeOk(tree: Tree) {
    && NULL !in tree
    && (forall p {:trigger tree[p].pprev} :: p in tree ==>
          if tree[p].nHeight == 0 then tree[p].pprev == NULL
          else tree[p].pprev in tree && tree[p].nHeight == tree[tree[p].pprev].nHeight + 1)
  }

  ghost predicate GenesisIs(tree: Tree, genesis: Ptr) {
    forall p :: p in tree && tree[p].nHeight == 0 ==> p == genesis
  }

  ghost predicate OneGenesis(tree: Tree) {
    exists genesis: Ptr :: GenesisIs(tree, genesis)
  }

  /** The ancestor of an entry at a height, itself included. */
  ghost function AncestorAt(tree: Tree, p: Ptr, h: nat): (r: Ptr)
    requires TreeOk(tree) && p in tree && h <= tree[p].nHeight
    ensures r in tree && tree[r].nHeight == h
    decreases tree[p].nHeight
  {
    if h == tree[p].nHeight then p else AncestorAt(tree, tree[p].pprev, h)
  }

  lemma {:induction false} AncestorOfAncestor(tree: Tree, p: Ptr, i: nat, j: nat)
    requires TreeOk(tree) && p in tree && j <= i <= tree[p].nHeight
    ensures AncestorAt(tree, AncestorAt(tree, p, i), j) == AncestorAt(tree, p, j)
    decreases tree[p].nHeight
  {
    if i < tree[p].nHeight {
      AncestorOfAncestor(tree, tree[p].pprev, i, j);
    }
  }

  lemma PrevAncestor(tree: Tree, p: Ptr, i: nat, j: nat)
    requires TreeOk(tree) && p in tree && j + 1 == i <= tree[p].nHeight
    ensures tree[AncestorAt(tree, p, i)].pprev == AncestorAt(tree, p, j)
  {
    var q := AncestorAt(tree, p, i);
    AncestorOfAncestor(tree, p, i, j);
    assert tree[q].pprev in tree;
    assert AncestorAt(tree, q, j) == AncestorAt(tree, tree[q].pprev, j);
  }

  /** Entries with the same ancestor at a height have the same ancestors below it. */
  lemma SameAncestors(tree: Tree, p: Ptr, q: Ptr, n: nat, i: nat)
    requires TreeOk(tree) && p in tree && q in tree && i <= n <= tree[p].nHeight && n <= tree[q].nHeight
    requires AncestorAt(tree, p, n) == AncestorAt(tree, q, n)
    ensures AncestorAt(tree, p, i) == AncestorAt(tree, q, i)
  {
    AncestorOfAncestor(tree, p, n, i);
    AncestorOfAncestor(tree, q, n, i);
  }

  /** p is on the chain of q. */
  ghost predicate OnChainOf(tree: Tree, p: Ptr, q: Ptr)
    requires TreeOk(tree) && q in tree
  {
    p in tree && tree[p].nHeight <= tree[q].nHeight && AncestorAt(tree, q, tree[p].nHeight) == p
  }

  /** The list of all ancestors of an entry, from the genesis block up to itself. */
  ghost predicate ChainOf(tree: Tree, c: seq<Ptr>, p: Ptr)
    requires TreeOk(tree) && (p == NULL || p in tree)
  {
    if p == NULL then c == []
    else |c| == tree[p].nHeight + 1 && forall i {:trigger c[i]} :: 0 <= i < |c| ==> c[i] == AncestorAt(tree, p, i)
  }

  function Last(c: seq<Ptr>): Ptr {
    if |c| > 0 then c[|c| - 1] else NULL
  }

  /** c is the list of all ancestors of its last entry. */
  ghost predicate IsChain(tree: Tree, c: seq<Ptr>) {
    TreeOk(tree) && (Last(c) != NULL ==> Last(c) in tree) && ChainOf(tree, c, Last(c))
  }

  /** Two nodes that know an entry know the same of it: a hash stands for one block and one predecessor. */
  ghost predicate Agree(tree: Tree, other: Tree) {
    forall p :: p in tree && p in other ==> tree[p] == other[p]
  }

  lemma {:induction false} SharedAncestor(tree: Tree, other: Tree, p: Ptr, h: nat)
    requires TreeOk(tree) && TreeOk(other) && Agree(tree, other) && p in tree && p in other && h <= tree[p].nHeight
    ensures AncestorAt(tree, p, h) == AncestorAt(other, p, h)
    decreases tree[p].nHeight
  {
    if h < tree[p].nHeight {
      SharedAncestor(tree, other, tree[p].pprev, h);
    }
  }

  /** Chains of two nodes through a shared entry agree below it. */
  lemma SharedPrefix(tree: Tree, other: Tree, c: seq<Ptr>, d: seq<Ptr>, p: Ptr, q: Ptr, shared: Ptr, h: nat)
    requires TreeOk(tree) && TreeOk(other) && Agree(tree, other) && p in tree && q in other
    requires ChainOf(tree, c, p) && ChainOf(other, d, q)
    requires shared in c && shared in d && h <= tree[shared].nHeight
    ensures h < |c| && h < |d| && c[h] == d[h]
  {
    AncestorOfAncestor(tree, p, tree[shared].nHeight, h);
    AncestorOfAncestor(other, q, tree[shared].nHeight, h);
    SharedAncestor(tree, other, shared, h);
  }

  /** A chain that holds an ancestor of an entry holds all the ancestors below it. */
  lemma SameBelow(tree: Tree, was: seq<Ptr>, wasTip: Ptr, pindex: Ptr, n: nat)
    requires TreeOk(tree) && pindex in tree && wasTip in tree && ChainOf(tree, was, wasTip)
    requires n < |was| && n <= tree[pindex].nHeight && was[n] == AncestorAt(tree, pindex, n)
    ensures forall i :: 0 <= i <= n ==> was[i] == AncestorAt(tree, pindex, i)
  {
    forall i | 0 <= i <= n ensures was[i] == AncestorAt(tree, pindex, i) {
      SameAncestors(tree, pindex, wasTip, n, i);
    }
  }

  /** The chain of a child is the chain of its predecessor with the child on top. */
  lemma ChainOfChild(tree: Tree, c: seq<Ptr>, d: seq<Ptr>, p: Ptr)
    requires TreeOk(tree) && p in tree && (tree[p].pprev == NULL || tree[p].pprev in tree)
    requires ChainOf(tree, c, tree[p].pprev) && ChainOf(tree, d, p)
    ensures d == c + [p]
  {
    assert tree[p].pprev != NULL ==> tree[p].nHeight == tree[tree[p].pprev].nHeight + 1;
    forall i | 0 <= i < |c| ensures d[i] == c[i] {
      assert AncestorAt(tree, p, i) == AncestorAt(tree, tree[p].pprev, i);
    }
  }

  function NextHeight(h: nat, nStep: nat): nat {
    if h > nStep then h - nStep else 0
  }

  /** The step doubles once more than ten entries are listed. */
  function NextStep(nStep: nat, have: nat): nat {
    if have > 10 then nStep * 2 else nStep
  }

  /** The heights a locator starting at height h lists, when `have` entries are listed already. */
  function LocatorHeights(h: nat, nStep: nat, have: nat): (r: seq<nat>)
    requires nStep > 0
    ensures |r| > 0 && r[0] == h
    decreases h
  {
    if h == 0 then [0]
    else [h] + LocatorHeights(NextHeight(h, nStep), NextStep(nStep, have + 1), have + 1)
  }

  lemma LocatorUnfold(done: seq<nat>, h: nat, nStep: nat, have: nat)
    requires nStep > 0
    ensures done + LocatorHeights(h, nStep, have) ==
            if h == 0 then done + [h]
            else (done + [h]) + LocatorHeights(NextHeight(h, nStep), NextStep(nStep, have + 1), have + 1)
  {
  }

  lemma {:induction false} LocatorEndsAtGenesis(h: nat, nStep: nat, have: nat)
    requires nStep > 0
    ensures LocatorHeights(h, nStep, have)[|LocatorHeights(h, nStep, have)| - 1] == 0
    decreases h
  {
    if h > 0 {
      LocatorEndsAtGenesis(NextHeight(h, nStep), NextStep(nStep, have + 1), have + 1);
    }
  }

  predicate Descending(r: seq<nat>) {
    forall i, j :: 0 <= i < j < |r| ==> r[i] > r[j]
  }

  /** Locator heights fall strictly. */
  lemma {:induction false} LocatorDescends(h: nat, nStep: nat, have: nat)
    requires nStep > 0
    ensures Descending(LocatorHeights(h, nStep, have))
    decreases h
  {
    if h > 0 {
      var next := NextHeight(h, nStep);
      var step := NextStep(nStep, have + 1);
      LocatorDescends(next, step, have + 1);
      DescendingCons(h, LocatorHeights(next, step, have + 1));
    }
  }

  lemma DescendingCons(h: nat, rest: seq<nat>)
    requires Descending(rest) && rest != [] && h > rest[0]
    ensures Descending([h] + rest)
  {
    var r := [h] + rest;
    forall i, j | 0 <= i < j < |r| ensures r[i] > r[j] {
      assert r[j] == rest[j - 1];
      if i > 0 {
        assert r[i] == rest[i - 1];
      }
    }
  }

  lemma DoubledSum(nStep: nat, p: nat)
    ensures nStep * (2 * p - 1) == nStep * 2 * (p - 1) + nStep
  {
  }

  /** Once the step doubles, n more entries need a height of at least the sum of their steps. */
  lemma {:induction false} DoublingLength(h: nat, nStep: nat, have: nat)
    requires nStep > 0 && have >= 10
    ensures var n := |LocatorHeights(h, nStep, have)|; n <= 2 || nStep * (Pow2(n - 2) - 1) < h
    decreases h
  {
    if h > 0 {
      var next := NextHeight(h, nStep);
      DoublingLength(next, nStep * 2, have + 1);
      var n := |LocatorHeights(next, nStep * 2, have + 1)|;
      if n > 2 {
        DoubledSum(nStep, Pow2(n - 2));
      }
    }
  }

  /** At most twelve entries, plus one for every doubling that fits below the height. */
  lemma {:induction false} LocatorLength(h: nat, have: nat)
    requires have <= 10
    ensures var n := have + |LocatorHeights(h, 1, have)|; n <= 12 || Pow2(n - 12) <= h
    decreases 10 - have
  {
    if have == 10 {
      DoublingLength(h, 1, 10);
    } else if h > 0 {
      LocatorLength(h - 1, have + 1);
    }
  }

  /** No step computed on the way down exceeds the limit. */
  predicate StepsWithin(h: nat, nStep: nat, have: nat, limit: nat)
    requires nStep > 0
    decreases h
  {
    nStep <= limit &&
    (h > 0 ==> StepsWithin(NextHeight(h, nStep), NextStep(nStep, have + 1), have + 1, limit))
  }

  /** No step taken exceeds the limit; the last one computed is not taken. */
  predicate StepsTakenWithin(h: nat, nStep: nat, have: nat, limit: nat)
    requires nStep > 0
    decreases h
  {
    h > 0 ==>
      nStep <= limit && StepsTakenWithin(NextHeight(h, nStep), NextStep(nStep, have + 1), have + 1, limit)
  }

  /** Doubling from nStep, m times at most. */
  lemma {:induction false} DoublingSteps(h: nat, nStep: nat, have: nat, m: nat, limit: nat)
    requires nStep > 0 && have >= 10 && limit == nStep * Pow2(m)
    ensures StepsWithin(h, nStep, have, limit) <==> h <= limit - nStep
    ensures StepsTakenWithin(h, nStep, have, limit) <==> h <= 2 * limit - nStep
    decreases h
  {
    StepBelow(nStep, m);
    if h > 0 {
      var next, twice := NextHeight(h, nStep), nStep * 2;
      if m > 0 {
        assert twice * Pow2(m - 1) == limit by {
          assert nStep * 2 * Pow2(m - 1) == nStep * (2 * Pow2(m - 1));
        }
        DoublingSteps(next, twice, have + 1, m - 1, limit);
      }
    }
  }

  lemma StepBelow(nStep: nat, m: nat)
    ensures nStep * Pow2(m) >= nStep
    ensures m > 0 ==> nStep * Pow2(m) >= 2 * nStep
  {
    ProductNonNegative(nStep, Pow2(m) - 1);
    if m > 0 {
      ProductNonNegative(nStep, Pow2(m - 1) - 1);
      assert nStep * Pow2(m) == 2 * (nStep * Pow2(m - 1));
    }
  }

  /** The first ten steps are single. */
  lemma {:induction false} SingleSteps(h: nat, have: nat, limit: nat)
    requires have <= 10 && limit > 0
    ensures var rest := if h > 10 - have then h - (10 - have) else 0;
            && (StepsWithin(h, 1, have, limit) <==> StepsWithin(rest, 1, 10, limit))
            && (StepsTakenWithin(h, 1, have, limit) <==> StepsTakenWithin(rest, 1, 10, limit))
    decreases 10 - have
  {
    if have < 10 && h > 0 {
      SingleSteps(h - 1, have + 1, limit);
    }
  }

  /**
   The step of a locator is a 32-bit integer.  It overflows exactly from a start
   height of 2^30 + 10 on, and then the step that overflowed is never taken: only
   the genesis block follows.
   */
  lemma LocatorSteps(h: nat)
    ensures StepsWithin(h, 1, 0, 0x4000_0000) <==> h < 0x4000_000A
    ensures StepsTakenWithin(h, 1, 0, 0x4000_0000) <==> h < 0x8000_000A
  {
    var m := 30;
    assert Pow2(m) == 0x4000_0000 by {
      PowerThirty();
    }
    SingleSteps(h, 0, 0x4000_0000);
    DoublingSteps(if h > 10 then h - 10 else 0, 1, 10, m, 0x4000_0000);
  }

  lemma PowerThirty()
    ensures Pow2(30) == 0x4000_0000
  {
    assert Pow2(10) == 1024;
    assert Pow2(20) == 1024 * Pow2(10);
    assert Pow2(30) == 1024 * Pow2(20);
  }

  /** vector::resize: cut off, or filled up with null pointers. */
  function Resized(s: seq<Ptr>, size: nat): (r: seq<Ptr>)
    ensures |r| == size && forall i :: 0 <= i < size ==> r[i] == if i < |s| then s[i] else NULL
  {
    if |s| >= size then s[..size] else s + seq(size - |s|, i => NULL)
  }

  class Chain {
    /** The block index, as this chain sees it. */
    var tree: Tree
    var vChain: seq<Ptr>

    ghost predicate Valid()
      reads this
    {
      IsChain(tree, vChain)
    }

    constructor (tree: Tree)
      requires TreeOk(tree)
      ensures Valid() && vChain == [] && this.tree == tree
    {
      this.tree := tree;
      vChain := [];
    }

    function Genesis(): Ptr
      reads this
    {
      if |vChain| > 0 then vChain[0] else NULL
    }

    function Tip(): Ptr
      reads this
    {
      Last(vChain)
    }

    function At(nHeight: int): Ptr
      reads this
    {
      if nHeight < 0 || nHeight >= |vChain| then NULL else vChain[nHeight]
    }

    predicate Contains(p: Ptr)
      requires p in tree
      reads this
    {
      At(tree[p].nHeight) == p
    }

    function Height(): int
      reads this
    {
      |vChain| - 1
    }

    /**
     The chain becomes exactly the ancestors of the new tip although the walk
     stops at the first entry already in place, which is the fork point: the
     last entry the old chain shares with the new one.
     */
    method SetTip(pindex: Ptr) returns (fork: Ptr)
      requires Valid() && (pindex == NULL || pindex in tree)
      modifies this`vChain
      ensures Valid() && ChainOf(tree, vChain, pindex) && Tip() == pindex
      ensures fork != NULL ==> fork in old(vChain) && fork in vChain
      ensures pindex != NULL ==>
                forall q :: q in old(vChain) && q in vChain ==> fork != NULL && tree[q].nHeight <= tree[fork].nHeight
    {
      if pindex == NULL {
        vChain := [];
        return NULL;
      }
      ghost var was, wasTip := vChain, Tip();
      vChain := Resized(vChain, tree[pindex].nHeight + 1);
      fork := WalkBack(pindex, was);
      RewrittenIsChain(pindex, was, wasTip, fork);
      SharedBelow(was, wasTip, pindex, fork);
    }

    /** The chain from the fork upwards, exclusively, is the new one; the old one differs there. */
    ghost predicate Rewritten(pindex: Ptr, was: seq<Ptr>, fork: Ptr)
      requires TreeOk(tree) && pindex in tree
      reads this
    {
      && |vChain| == tree[pindex].nHeight + 1
      && (fork != NULL ==> OnChainOf(tree, fork, pindex))
      && (forall i :: 0 <= i < |vChain| ==>
            if fork != NULL && i <= tree[fork].nHeight then vChain[i] == if i < |was| then was[i] else NULL
            else vChain[i] == AncestorAt(tree, pindex, i) && (i < |was| ==> was[i] != vChain[i]))
    }

    lemma RewrittenIsChain(pindex: Ptr, was: seq<Ptr>, wasTip: Ptr, fork: Ptr)
      requires TreeOk(tree) && pindex in tree && (wasTip == NULL || wasTip in tree) && ChainOf(tree, was, wasTip)
      requires Rewritten(pindex, was, fork) && (fork != NULL ==> vChain[tree[fork].nHeight] == fork)
      ensures ChainOf(tree, vChain, pindex) && (fork != NULL ==> fork in was && fork in vChain)
    {
      if fork != NULL {
        assert was[tree[fork].nHeight] == fork;
        SameBelow(tree, was, wasTip, pindex, tree[fork].nHeight);
      }
    }

    /** Entries are written downwards until one is already in place. */
    method WalkBack(pindex: Ptr, ghost was: seq<Ptr>) returns (fork: Ptr)
      requires TreeOk(tree) && pindex in tree && vChain == Resized(was, tree[pindex].nHeight + 1)
      modifies this`vChain
      ensures Rewritten(pindex, was, fork)
      ensures fork != NULL ==> vChain[tree[fork].nHeight] == fork
    {
      fork := pindex;
      while fork != NULL && vChain[tree[fork].nHeight] != fork
        invariant Rewritten(pindex, was, fork)
        decreases if fork == NULL then 0 else tree[fork].nHeight + 1
      {
        var h := tree[fork].nHeight;
        if h > 0 {
          PrevAncestor(tree, pindex, h, h - 1);
        }
        vChain := vChain[h := fork];
        fork := tree[fork].pprev;
      }
    }

    /** Entries of both chains lie at or below the fork. */
    lemma SharedBelow(was: seq<Ptr>, wasTip: Ptr, pindex: Ptr, fork: Ptr)
      requires TreeOk(tree) && pindex in tree && (wasTip == NULL || wasTip in tree) && ChainOf(tree, was, wasTip)
      requires fork == NULL || fork in tree
      requires forall i :: 0 <= i <= tree[pindex].nHeight && i < |was| && (fork != NULL ==> i > tree[fork].nHeight) ==>
                             was[i] != AncestorAt(tree, pindex, i)
      ensures forall q :: q in was && OnChainOf(tree, q, pindex) ==>
                fork != NULL && tree[q].nHeight <= tree[fork].nHeight
    {
    }

    /** Strictly descending ancestors of the start, from itself to the genesis block, at the locator heights. */
    method ListLocator(start: Ptr) returns (vHave: seq<Ptr>)
      requires Valid() && start in tree
      ensures ListsHeights(vHave, start, LocatorHeights(tree[start].nHeight, 1, 0))
    {
      var nStep := 1;
      vHave := [];
      var p := start;
      ghost var heights := LocatorHeights(tree[start].nHeight, 1, 0);
      ghost var done: seq<nat> := [];
      while true
        invariant p in tree && OnChainOf(tree, p, start) && nStep > 0
        invariant |done| == |vHave|
        invariant heights == done + LocatorHeights(tree[p].nHeight, nStep, |vHave|)
        invariant ListsHeights(vHave, start, done)
        decreases tree[p].nHeight
      {
        vHave := vHave + [p];
        LocatorUnfold(done, tree[p].nHeight, nStep, |done|);
        done := done + [tree[p].nHeight];
        if tree[p].nHeight == 0 {
          break;
        }
        p := StepBack(p, NextHeight(tree[p].nHeight, nStep), start);
        nStep := NextStep(nStep, |vHave|);
      }
    }

    /** The locator of an entry, by default the tip. */
    method GetLocator(pindex: Ptr) returns (vHave: seq<Ptr>)
      requires Valid() && (pindex == NULL || pindex in tree)
      ensures var start := if pindex == NULL then Tip() else pindex;
              if start == NULL then vHave == []
              else ListsHeights(vHave, start, LocatorHeights(tree[start].nHeight, 1, 0))
    {
      var start := if pindex == NULL then Tip() else pindex;
      if start == NULL {
        return [];
      }
      vHave := ListLocator(start);
    }

    ghost predicate ListsHeights(list: seq<Ptr>, start: Ptr, heights: seq<nat>)
      requires TreeOk(tree) && start in tree
      reads this
    {
      && |list| == |heights|
      && forall i :: 0 <= i < |list| ==>
           heights[i] <= tree[start].nHeight && list[i] == AncestorAt(tree, start, heights[i])
    }

    /** Entries off the chain are walked one by one; from the first on the chain the height is looked up. */
    method StepBack(from: Ptr, nHeight: nat, ghost start: Ptr) returns (p: Ptr)
      requires Valid() && start in tree && OnChainOf(tree, from, start) && nHeight < tree[from].nHeight
      ensures p in tree && OnChainOf(tree, p, start) && tree[p].nHeight == nHeight
    {
      p := from;
      while tree[p].nHeight > nHeight && !Contains(p)
        invariant p in tree && OnChainOf(tree, p, start) && tree[p].nHeight >= nHeight
        decreases tree[p].nHeight
      {
        PrevAncestor(tree, start, tree[p].nHeight, tree[p].nHeight - 1);
        p := tree[p].pprev;
      }
      if tree[p].nHeight > nHeight {
        AncestorOfAncestor(tree, start, tree[p].nHeight, nHeight);
        AncestorOfAncestor(tree, Tip(), tree[p].nHeight, nHeight);
        p := At(nHeight);
      }
    }

    /** The first entry of the locator that lies on this chain, or the genesis block. */
    method FindFork(locator: seq<Ptr>) returns (fork: Ptr)
      requires Valid()
      ensures FirstShared(locator) <= |locator|
      ensures fork == if FirstShared(locator) < |locator| then locator[FirstShared(locator)] else Genesis()
    {
      for i := 0 to |locator|
        invariant FirstSharedFrom(locator, i) == FirstShared(locator)
      {
        var p := locator[i];
        if p in tree {
          if Contains(p) {
            return p;
          }
        }
      }
      fork := Genesis();
    }

    /** The place of the first locator entry on this chain. */
    ghost function FirstShared(locator: seq<Ptr>): nat
      reads this
    {
      FirstSharedFrom(locator, 0)
    }

    ghost function FirstSharedFrom(locator: seq<Ptr>, i: nat): nat
      reads this
      decreases |locator| - i
    {
      if i < |locator| && locator[i] !in vChain then FirstSharedFrom(locator, i + 1) else i
    }

    lemma {:induction false} NoneBefore(locator: seq<Ptr>, i: nat)
      requires i <= |locator|
      ensures i <= FirstSharedFrom(locator, i) <= |locator|
      ensures forall j :: i <= j < FirstSharedFrom(locator, i) ==> locator[j] !in vChain
      ensures FirstSharedFrom(locator, i) < |locator| ==> locator[FirstSharedFrom(locator, i)] in vChain
      decreases |locator| - i
    {
      if i < |locator| && locator[i] !in vChain {
        NoneBefore(locator, i + 1);
      }
    }

    /** fork is on both chains, and every entry on both lies below the locator entry before it. */
    ghost predicate AtOrBelowFork(peer: seq<Ptr>, heights: seq<nat>, fork: Ptr, k: nat)
      reads this
    {
      && fork in vChain && fork in peer && fork in tree
      && k < |heights| && tree[fork].nHeight == heights[k]
      && (forall q :: q in vChain && q in peer ==> q in tree && (k > 0 ==> tree[q].nHeight < heights[k - 1]))
    }

    lemma ForkBounds(locator: seq<Ptr>, heights: seq<nat>, peer: Chain, k: nat)
      requires Valid() && peer.Valid() && Agree(tree, peer.tree) && vChain != [] && peer.vChain != []
      requires peer.ListsHeights(locator, peer.Tip(), heights)
      requires vChain[0] == peer.vChain[0] && heights != [] && heights[|heights| - 1] == 0
      requires k <= |locator| && forall i :: 0 <= i < k ==> locator[i] !in vChain
      requires k < |locator| ==> locator[k] in vChain
      ensures k < |locator| && AtOrBelowFork(peer.vChain, heights, locator[k], k)
    {
      assert locator[|heights| - 1] == peer.vChain[0];
      assert locator[k] == peer.vChain[heights[k]];
      if k > 0 {
        assert locator[k - 1] == peer.vChain[heights[k - 1]];
        forall q | q in vChain && q in peer.vChain ensures tree[q].nHeight < heights[k - 1] {
          if heights[k - 1] <= tree[q].nHeight {
            SharedPrefix(tree, peer.tree, vChain, peer.vChain, Tip(), peer.Tip(), q, heights[k - 1]);
          }
        }
      }
    }

    /**
     A peer, whose chain may hold blocks unknown here, sends its locator.  The
     entry found is shared by both chains, at or below their fork, and the
     locator entry before it is above the fork.
     */
    method FindForkOfPeer(peer: Chain) returns (fork: Ptr)
      requires Valid() && peer.Valid() && vChain != [] && peer.vChain != [] && vChain[0] == peer.vChain[0]
      requires Agree(tree, peer.tree)
      ensures exists k ::
                AtOrBelowFork(peer.vChain, LocatorHeights(peer.tree[peer.Tip()].nHeight, 1, 0), fork, k)
    {
      var locator := peer.GetLocator(NULL);
      fork := FindFork(locator);
      ghost var k := FirstShared(locator);
      NoneBefore(locator, 0);
      ghost var heights := LocatorHeights(peer.tree[peer.Tip()].nHeight, 1, 0);
      LocatorEndsAtGenesis(peer.tree[peer.Tip()].nHeight, 1, 0);
      ForkBounds(locator, heights, peer, k);
    }
  }
}
