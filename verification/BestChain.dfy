/**
 Activation and the coins view together (main.cpp: ActivateBestChain with
 ConnectTip and DisconnectTip).  Where a verdict says what ConnectBlock decides
 on the replay of the chain below, a node that carries out the tip changes of
 ActivateBestChain shows the replay of the active chain, and no received block
 whose chain the rules accept ranks above its tip.
 */
module BestChain {
  import opened Coins
  import opened Utxo
  import opened UndoFiles
  import opened ChainState
  import opened BlockTree
  import opened Activation

  /** The entry as a value with its ancestry. */
  ghost function IndexOf(tree: Tree, blocks: Ptr -> Block, p: Ptr): BlockIndex
    requires TreeOk(tree) && p in tree
    decreases tree[p].nHeight
  {
    if tree[p].nHeight == 0 then Genesis(p) else Child(IndexOf(tree, blocks, tree[p].pprev), blocks(p))
  }

  /** Whether ConnectBlock accepts the block on the replay of the chain below it. */
  ghost predicate Accepts(tree: Tree, blocks: Ptr -> Block, p: Ptr)
    requires TreeOk(tree) && p in tree
  {
    tree[p].nHeight > 0 ==> ConnectOk(Replay(IndexOf(tree, blocks, tree[p].pprev)), blocks(p), tree[p].nHeight)
  }

  /** The verdicts are those of ConnectBlock, as far as no system error prevents one. */
  ghost predicate VerdictsOk(tree: Tree, verdict: Ptr -> Outcome, blocks: Ptr -> Block)
    requires TreeOk(tree)
  {
    forall p :: p in tree ==>
                  && blocks(p).hash == p
                  && (verdict(p) == Connects ==> Accepts(tree, blocks, p))
                  && (verdict(p) == Violates || verdict(p) == Corrupt ==> !Accepts(tree, blocks, p))
  }

  lemma {:induction false} IndexFits(tree: Tree, verdict: Ptr -> Outcome, blocks: Ptr -> Block, p: Ptr)
    requires TreeOk(tree) && VerdictsOk(tree, verdict, blocks) && p in tree
    ensures var idx := IndexOf(tree, blocks, p); idx.Height() == tree[p].nHeight && idx.Hash() == p
    decreases tree[p].nHeight
  {
    if tree[p].nHeight > 0 {
      IndexFits(tree, verdict, blocks, tree[p].pprev);
    }
  }

  /** A chain that the rules accept breaks none. */
  lemma {:induction false} AcceptedIsGood(tree: Tree, verdict: Ptr -> Outcome, blocks: Ptr -> Block, p: Ptr)
    requires TreeOk(tree) && VerdictsOk(tree, verdict, blocks) && p in tree && ChainOk(IndexOf(tree, blocks, p))
    ensures First(tree, verdict, p) == Connects || First(tree, verdict, p) == SystemError
    decreases tree[p].nHeight
  {
    IndexFits(tree, verdict, blocks, p);
    if tree[p].nHeight > 0 {
      AcceptedIsGood(tree, verdict, blocks, tree[p].pprev);
    }
  }

  /** What the tip of a node is when the active chain is c. */
  ghost function TipOf(tree: Tree, blocks: Ptr -> Block, genesis: Ptr, c: seq<Ptr>): BlockIndex
    requires TreeOk(tree) && (c == [] || Last(c) in tree)
  {
    if c == [] then Genesis(genesis) else IndexOf(tree, blocks, Last(c))
  }

  /** Everything about the index that following it needs. */
  ghost predicate Followable(tree: Tree, verdict: Ptr -> Outcome, blocks: Ptr -> Block, genesis: Ptr) {
    && TreeOk(tree) && GenesisIs(tree, genesis) && genesis != NULL
    && VerdictsOk(tree, verdict, blocks)
  }

  /** A block as Node.ConnectTip needs it: its outputs are storable, or its chain has paid little. */
  ghost predicate BlockFits(tree: Tree, blocks: Ptr -> Block, p: Ptr)
    requires TreeOk(tree) && p in tree
  {
    tree[p].nHeight > 0 ==> Fits(IndexOf(tree, blocks, tree[p].pprev), blocks(p))
  }

  /** Every block that was connected fits; those refused or never tried do not matter. */
  ghost predicate ConnectedFit(tree: Tree, blocks: Ptr -> Block, journal: Journal)
    requires TreeOk(tree)
  {
    journal.Then? ==>
      && ConnectedFit(tree, blocks, journal.before)
      && (journal.change.Connected? && journal.change.p in tree ==> BlockFits(tree, blocks, journal.change.p))
  }

  /** Where a block p is offered to a node with the chain c. */
  ghost predicate Offered(tree: Tree, verdict: Ptr -> Outcome, blocks: Ptr -> Block, genesis: Ptr, c: seq<Ptr>,
                          p: Ptr) {
    && Followable(tree, verdict, blocks, genesis) && p in tree && tree[p].pprev == Last(c)
    && (c != [] ==> Last(c) in tree) && ChainOk(TipOf(tree, blocks, genesis, c))
  }

  /** A child of the tip is accepted exactly as the verdict says; the genesis block is there from the start. */
  lemma ChildOfTip(tree: Tree, verdict: Ptr -> Outcome, blocks: Ptr -> Block, genesis: Ptr, c: seq<Ptr>, p: Ptr)
    requires Offered(tree, verdict, blocks, genesis, c, p)
    ensures blocks(p).hash == p != NULL
    ensures tree[p].nHeight == 0 <==> c == []
    ensures c == [] ==> p == genesis && verdict(p) != Violates
    ensures c != [] ==> IndexOf(tree, blocks, p) == Child(TipOf(tree, blocks, genesis, c), blocks(p))
    ensures c != [] && verdict(p) == Connects ==> ChainOk(IndexOf(tree, blocks, p))
    ensures c != [] && verdict(p) == Violates ==> !ChainOk(IndexOf(tree, blocks, p))
  {
    IndexFits(tree, verdict, blocks, p);
  }

  /** A block that was refused is offered again and refused again. */
  method Offer(tree: Tree, ghost verdict: Ptr -> Outcome, blocks: Ptr -> Block, ghost genesis: Ptr, ghost c: seq<Ptr>,
               p: Ptr, node: Node)
    requires Offered(tree, verdict, blocks, genesis, c, p) && (verdict(p) == Connects || verdict(p) == Violates)
    requires verdict(p) == Connects ==> BlockFits(tree, blocks, p)
    requires node.Sound() && node.tip == TipOf(tree, blocks, genesis, c)
    modifies node, node.pcoinsTip.Repr
    ensures node.Sound()
    ensures node.tip == if verdict(p) == Connects then IndexOf(tree, blocks, p) else TipOf(tree, blocks, genesis, c)
  {
    ChildOfTip(tree, verdict, blocks, genesis, c, p);
    if tree[p].nHeight > 0 {
      var v := node.ConnectTip(blocks(p));
    }
  }

  /** The tip after a change, from the one before. */
  lemma TipAfter(tree: Tree, verdict: Ptr -> Outcome, blocks: Ptr -> Block, genesis: Ptr, c: seq<Ptr>,
                 change: TipChange)
    requires TreeOk(tree) && (c != [] ==> Last(c) in tree) && ChangeOk(tree, verdict, c, change)
    ensures Changed(c, change) != [] ==> Last(Changed(c, change)) in tree
    ensures change.Connected? ==> TipOf(tree, blocks, genesis, Changed(c, change)) == IndexOf(tree, blocks, change.p)
    ensures change.Refused? ==> TipOf(tree, blocks, genesis, Changed(c, change)) == TipOf(tree, blocks, genesis, c)
    ensures change.Disconnected? ==>
              TipOf(tree, blocks, genesis, c).Child? &&
              TipOf(tree, blocks, genesis, Changed(c, change)) == TipOf(tree, blocks, genesis, c).prev
  {
  }

  /** One change carried out. */
  method CarryOut(tree: Tree, ghost verdict: Ptr -> Outcome, blocks: Ptr -> Block, ghost genesis: Ptr,
                  ghost c: seq<Ptr>, change: TipChange, node: Node)
    requires Followable(tree, verdict, blocks, genesis) && (c != [] ==> Last(c) in tree)
    requires ChangeOk(tree, verdict, c, change) && (change.Connected? ==> BlockFits(tree, blocks, change.p))
    requires node.Sound() && node.tip == TipOf(tree, blocks, genesis, c)
    modifies node, node.pcoinsTip.Repr
    ensures node.Sound() && (Changed(c, change) != [] ==> Last(Changed(c, change)) in tree)
    ensures node.tip == TipOf(tree, blocks, genesis, Changed(c, change))
  {
    TipAfter(tree, verdict, blocks, genesis, c, change);
    ghost var expected := TipOf(tree, blocks, genesis, Changed(c, change));
    if change.Disconnected? {
      var ok := node.DisconnectTip();
      assert node.tip == expected;
    } else {
      Offer(tree, verdict, blocks, genesis, c, change.p, node);
      assert node.tip == expected;
    }
  }

  /** The node after a whole journal; the cache is written whenever the program may decide to. */
  method Follow(tree: Tree, ghost verdict: Ptr -> Outcome, blocks: Ptr -> Block, ghost genesis: Ptr, journal: Journal,
                writes: Journal -> bool, node: Node)
    requires Followable(tree, verdict, blocks, genesis) && JournalOk(tree, verdict, journal)
    requires ConnectedFit(tree, blocks, journal)
    requires node.Sound() && node.tip == Genesis(genesis)
    modifies node, node.pcoinsTip.Repr
    ensures node.Sound()
    ensures After(journal) != [] ==> Last(After(journal)) in tree
    ensures node.tip == TipOf(tree, blocks, genesis, After(journal))
    decreases journal
  {
    if journal.Then? {
      Follow(tree, verdict, blocks, genesis, journal.before, writes, node);
      CarryOut(tree, verdict, blocks, genesis, After(journal.before), journal.change, node);
      if writes(journal) {
        node.WriteChainState();
      }
    }
  }

  /**
   A node that has done what ActivateBestChain did shows the replay of the
   active chain, and when activation has succeeded, no received block with a
   chain that the rules accept ranks above the tip.
   */
  method ShowBestChain(m: ChainManager, blocks: Ptr -> Block, genesis: Ptr, writes: Journal -> bool,
                       hasher: HashFunction)
    returns (node: Node)
    requires m.Valid() && m.active.Tip() != NULL && Followable(m.tree, m.verdict, blocks, genesis)
    requires ConnectedFit(m.tree, blocks, m.journal)
    ensures node.Sound() && m.active.Tip() in m.tree
    ensures var idx := IndexOf(m.tree, blocks, m.active.Tip());
            && node.tip == idx && ChainOk(idx)
            && ViewOf(node.pcoinsTip.Visible(), Replay(idx))
    ensures m.BestIsActive() ==>
              forall p :: p in m.ready && p in m.tree && ChainOk(IndexOf(m.tree, blocks, p)) ==>
                            !Less(m.tree, m.active.Tip(), p)
  {
    node := new Node(genesis, hasher);
    Follow(m.tree, m.verdict, blocks, genesis, m.journal, writes, node);
    if m.BestIsActive() {
      forall p | p in m.ready && p in m.tree && ChainOk(IndexOf(m.tree, blocks, p))
        ensures p in m.candidates
      {
        AcceptedIsGood(m.tree, m.verdict, blocks, p);
      }
    }
  }
}
