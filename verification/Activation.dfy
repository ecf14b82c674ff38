/**
 Switching to the chain with the most work (main.cpp: the work comparator,
 InvalidBlockFound, FindMostWorkChain, ActivateBestChain, AddToBlockIndex).

 Whether a block connects is a fixed verdict on the block, as it depends only on
 the block and its ancestors.  A refusal flagged as possible corruption is not
 recorded, and the loop of ActivateBestChain repeats.  Main results: on success
 the active tip is the best of all blocks whose chain breaks no rule; so it is
 after every block that arrives.  The loop ends unless the best such block has a
 block on its chain that is refused in this way before anything else stops it;
 then every further round repeats the last one (RepeatRounds).
 */
module Activation {
  import opened BlockTree

  /** Corrupt: refused, but not marked, as the block may have been damaged on its way here. */
  datatype Outcome = Connects | Violates | Corrupt | SystemError

  /** CBlockIndexWorkComparator: less work, then received later, then the higher address. */
  predicate Less(tree: Tree, a: Ptr, b: Ptr)
    requires a in tree && b in tree
  {
    if tree[a].nChainWork > tree[b].nChainWork then false
    else if tree[a].nChainWork < tree[b].nChainWork then true
    else if tree[a].nSequenceId < tree[b].nSequenceId then false
    else if tree[a].nSequenceId > tree[b].nSequenceId then true
    else if a < b then false
    else if a > b then true
    else false
  }

  /** The comparator is a strict total order. */
  lemma LessIsTotalOrder(tree: Tree, a: Ptr, b: Ptr, c: Ptr)
    requires a in tree && b in tree && c in tree
    ensures !Less(tree, a, a)
    ensures a != b ==> (Less(tree, a, b) <==> !Less(tree, b, a))
    ensures Less(tree, a, b) && Less(tree, b, c) ==> Less(tree, a, c)
  {
  }

  /** What connecting the chain of the block from the genesis block on meets first that is not Connects, if anything. */
  ghost function First(tree: Tree, verdict: Ptr -> Outcome, p: Ptr): Outcome
    requires TreeOk(tree) && p in tree
    decreases tree[p].nHeight
  {
    if tree[p].nHeight > 0 && First(tree, verdict, tree[p].pprev) != Connects then First(tree, verdict, tree[p].pprev)
    else verdict(p)
  }

  /** The chain of the block breaks a rule. */
  ghost predicate Bad(tree: Tree, verdict: Ptr -> Outcome, p: Ptr)
    requires TreeOk(tree) && p in tree
  {
    First(tree, verdict, p) == Violates
  }

  /** What stops an ancestor stops the block. */
  lemma {:induction false} FirstOfAncestor(tree: Tree, verdict: Ptr -> Outcome, p: Ptr, h: nat)
    requires TreeOk(tree) && p in tree && h <= tree[p].nHeight
    ensures var first := First(tree, verdict, AncestorAt(tree, p, h));
            first != Connects ==> First(tree, verdict, p) == first
    decreases tree[p].nHeight
  {
    if h < tree[p].nHeight {
      FirstOfAncestor(tree, verdict, tree[p].pprev, h);
    }
  }

  /** Nothing stops a chain of blocks that all connect. */
  lemma {:induction false} ChainIsGood(tree: Tree, verdict: Ptr -> Outcome, c: seq<Ptr>, tip: Ptr, h: nat)
    requires TreeOk(tree) && tip in tree && ChainOf(tree, c, tip) && h < |c|
    requires forall p :: p in c ==> verdict(p) == Connects
    ensures First(tree, verdict, c[h]) == Connects
  {
    if h > 0 {
      ChainIsGood(tree, verdict, c, tip, h - 1);
      PrevAncestor(tree, tip, h, h - 1);
    }
  }

  // ----- what decides -----

  /** The best block received whose chain breaks no rule. */
  ghost predicate Top(tree: Tree, verdict: Ptr -> Outcome, ready: set<Ptr>, b: Ptr)
    requires TreeOk(tree) && ready <= tree.Keys
  {
    b in ready && !Bad(tree, verdict, b) && forall c :: c in ready && !Bad(tree, verdict, c) ==> !Less(tree, b, c)
  }

  /** What stops the chain of the best block; nothing, if there is none. */
  ghost predicate Decided(tree: Tree, verdict: Ptr -> Outcome, ready: set<Ptr>, o: Outcome)
    requires TreeOk(tree) && ready <= tree.Keys
  {
    if exists b :: Top(tree, verdict, ready, b)
    then exists b :: Top(tree, verdict, ready, b) && First(tree, verdict, b) == o
    else o == Connects
  }

  lemma DecidedOnce(tree: Tree, verdict: Ptr -> Outcome, ready: set<Ptr>, o: Outcome, o': Outcome)
    requires TreeOk(tree) && ready <= tree.Keys
    requires Decided(tree, verdict, ready, o) && Decided(tree, verdict, ready, o')
    ensures o == o'
  {
    if a :| Top(tree, verdict, ready, a) && First(tree, verdict, a) == o {
      var b :| Top(tree, verdict, ready, b) && First(tree, verdict, b) == o';
      LessIsTotalOrder(tree, a, b, a);
    }
  }

  /** Whatever can be active can be disconnected. */
  ghost predicate Undoable(tree: Tree, verdict: Ptr -> Outcome, canDisconnect: Ptr -> bool)
    requires TreeOk(tree)
  {
    forall p :: p in tree && First(tree, verdict, p) == Connects ==> canDisconnect(p)
  }

  /** No failed block from the given height (exclusively) up to the block itself. */
  ghost predicate CleanAbove(tree: Tree, failed: set<Ptr>, p: Ptr, low: int)
    requires TreeOk(tree) && p in tree
  {
    forall h: nat {:trigger AncestorAt(tree, p, h)} ::
      low < h <= tree[p].nHeight ==> AncestorAt(tree, p, h) !in failed
  }

  /** One more block that is not failed. */
  lemma CleanStep(tree: Tree, failed: set<Ptr>, p: Ptr, t: Ptr)
    requires TreeOk(tree) && p in tree && OnChainOf(tree, t, p) && t !in failed
    requires CleanAbove(tree, failed, p, tree[t].nHeight)
    ensures if tree[t].nHeight == 0 then tree[t].pprev == NULL && CleanAbove(tree, failed, p, -1)
            else OnChainOf(tree, tree[t].pprev, p) && CleanAbove(tree, failed, p, tree[tree[t].pprev].nHeight)
  {
    var up := tree[t].pprev;
    if tree[t].nHeight > 0 {
      PrevAncestor(tree, p, tree[t].nHeight, tree[up].nHeight);
    }
    var low := if tree[t].nHeight == 0 then -1 else tree[up].nHeight;
    forall h: nat | low < h <= tree[p].nHeight ensures AncestorAt(tree, p, h) !in failed {
      if h == tree[t].nHeight {
        assert AncestorAt(tree, p, h) == t;
      }
    }
  }

  /** Below a block of a good chain there is nothing failed either. */
  lemma CleanDown(tree: Tree, verdict: Ptr -> Outcome, failed: set<Ptr>, c: seq<Ptr>, tip: Ptr, p: Ptr, t: Ptr)
    requires TreeOk(tree) && tip in tree && ChainOf(tree, c, tip) && forall q :: q in c ==> verdict(q) == Connects
    requires failed <= tree.Keys && forall q :: q in failed ==> Bad(tree, verdict, q)
    requires p in tree && OnChainOf(tree, t, p) && t in c && CleanAbove(tree, failed, p, tree[t].nHeight)
    ensures CleanAbove(tree, failed, p, -1)
  {
    forall h: nat | h <= tree[t].nHeight ensures AncestorAt(tree, p, h) !in failed {
      SameAncestors(tree, p, tip, tree[t].nHeight, h);
      ChainIsGood(tree, verdict, c, tip, h);
    }
  }

  /**
   What every step keeps about the failure marks.  The candidates are exactly the
   blocks received and not failed; a mark is justified by a bad block; above a mark
   lies another one or a received block, except for an entry whose predecessor is
   about to be marked.
   */
  ghost predicate MarksOk(tree: Tree, verdict: Ptr -> Outcome, ready: set<Ptr>, failed: set<Ptr>, candidates: set<Ptr>,
                          except: Ptr)
    requires TreeOk(tree)
  {
    && ready <= tree.Keys && failed <= tree.Keys
    && candidates == ready - failed
    && (forall p :: p in failed ==> Bad(tree, verdict, p))
    && (forall p {:trigger tree[p].pprev} :: p in failed && p != except && tree[p].nHeight > 0 ==>
          tree[p].pprev in failed || tree[p].pprev in ready)
  }

  lemma MarkOne(tree: Tree, verdict: Ptr -> Outcome, ready: set<Ptr>, failed: set<Ptr>, candidates: set<Ptr>, last: Ptr,
                q: Ptr)
    requires TreeOk(tree) && MarksOk(tree, verdict, ready, failed, candidates, last)
    requires q in tree && Bad(tree, verdict, q)
    requires last == NULL || (last in tree && tree[last].pprev == q)
    ensures MarksOk(tree, verdict, ready, failed + {q}, candidates - {q}, q)
  {
  }

  /** One step of marking the path from p down to the failed block t. */
  lemma MarkAncestor(tree: Tree, verdict: Ptr -> Outcome, ready: set<Ptr>, failed: set<Ptr>, candidates: set<Ptr>,
                     more: set<Ptr>, last: Ptr, p: Ptr, q: Ptr, t: Ptr)
    requires more == failed + {q}
    requires TreeOk(tree) && MarksOk(tree, verdict, ready, failed, candidates, last) && p in tree && t in failed
    requires OnChainOf(tree, q, p) && OnChainOf(tree, t, p) && tree[q].nHeight >= tree[t].nHeight && q != t
    requires last == NULL || (last in tree && tree[last].pprev == q)
    ensures MarksOk(tree, verdict, ready, more, candidates - {q}, q)
    ensures tree[q].nHeight > tree[t].nHeight && OnChainOf(tree, tree[q].pprev, p)
    ensures tree[tree[q].pprev].nHeight >= tree[t].nHeight
  {
    AncestorOfAncestor(tree, p, tree[q].nHeight, tree[t].nHeight);
    FirstOfAncestor(tree, verdict, q, tree[t].nHeight);
    MarkOne(tree, verdict, ready, failed, candidates, last, q);
    PrevAncestor(tree, p, tree[q].nHeight, tree[q].nHeight - 1);
  }

  lemma MarkLast(tree: Tree, verdict: Ptr -> Outcome, ready: set<Ptr>, failed: set<Ptr>, candidates: set<Ptr>,
                 last: Ptr)
    requires TreeOk(tree) && MarksOk(tree, verdict, ready, failed, candidates, last)
    requires last in tree ==> tree[last].nHeight == 0 || tree[last].pprev in failed || tree[last].pprev in ready
    ensures MarksOk(tree, verdict, ready, failed, candidates, NULL)
  {
  }

  // ----- the journal of the tip -----

  datatype TipChange = Connected(p: Ptr) | Refused(p: Ptr) | Disconnected

  /** What happened to the active tip, for the proofs that join this module with the coins view. */
  datatype Journal = Start | Then(before: Journal, change: TipChange)

  function Changed(c: seq<Ptr>, change: TipChange): seq<Ptr> {
    match change
    case Connected(p) => c + [p]
    case Refused(p) => c
    case Disconnected => if c == [] then [] else c[..|c| - 1]
  }

  /** The active chain after the changes. */
  function After(journal: Journal): seq<Ptr> {
    if journal.Start? then [] else Changed(After(journal.before), journal.change)
  }

  /** Children of the tip are connected or refused as the verdict says; the genesis block is never disconnected. */
  ghost predicate ChangeOk(tree: Tree, verdict: Ptr -> Outcome, c: seq<Ptr>, change: TipChange) {
    match change
    case Connected(p) => p in tree && tree[p].pprev == Last(c) && verdict(p) == Connects
    case Refused(p) => p in tree && tree[p].pprev == Last(c) && verdict(p) == Violates
    case Disconnected =>
      && |c| > 1 && Last(c) in tree
      && tree[Last(c)].nHeight > 0 && tree[Last(c)].pprev == c[|c| - 2]
  }

  ghost predicate JournalOk(tree: Tree, verdict: Ptr -> Outcome, journal: Journal) {
    journal.Then? ==>
      JournalOk(tree, verdict, journal.before) && ChangeOk(tree, verdict, After(journal.before), journal.change)
  }

  /** A block that connects has been received. */
  ghost predicate IndexOk(tree: Tree, verdict: Ptr -> Outcome, ready: set<Ptr>) {
    TreeOk(tree) && OneGenesis(tree) && forall p :: p in tree && verdict(p) == Connects ==> p in ready
  }

  /** The active chain, to which the journal led, has only blocks that connect. */
  ghost predicate ActiveOk(tree: Tree, verdict: Ptr -> Outcome, journal: Journal, c: seq<Ptr>) {
    && IsChain(tree, c) && (forall p :: p in c ==> verdict(p) == Connects)
    && JournalOk(tree, verdict, journal) && After(journal) == c
  }

  lemma ShorterChain(tree: Tree, verdict: Ptr -> Outcome, journal: Journal, was: seq<Ptr>, now: seq<Ptr>, tip: Ptr)
    requires ActiveOk(tree, verdict, journal, was) && tip != NULL && tip == Last(was) && tree[tip].nHeight > 0
    requires IsChain(tree, now) && Last(now) == tree[tip].pprev
    ensures was == now + [tip] && ActiveOk(tree, verdict, Then(journal, Disconnected), now)
  {
    ChainOfChild(tree, now, was, tip);
    assert was[..|was| - 1] == now;
  }

  lemma LongerChain(tree: Tree, verdict: Ptr -> Outcome, journal: Journal, was: seq<Ptr>, now: seq<Ptr>, p: Ptr)
    requires ActiveOk(tree, verdict, journal, was) && p in tree && tree[p].pprev == Last(was)
    requires verdict(p) == Connects && IsChain(tree, now) && Last(now) == p
    ensures now == was + [p] && ActiveOk(tree, verdict, Then(journal, Connected(p)), now)
  {
    ChainOfChild(tree, was, now, p);
  }

  /** One chain is the lower part of the other. */
  predicate Below(c: seq<Ptr>, d: seq<Ptr>) {
    |c| <= |d| && forall i :: 0 <= i < |c| ==> c[i] == d[i]
  }

  // ----- a block arrives -----

  /** The tree with one more entry. */
  ghost predicate Extends(more: Tree, tree: Tree, p: Ptr) {
    && TreeOk(more) && TreeOk(tree) && p !in tree && more.Keys == tree.Keys + {p}
    && forall q :: q in tree ==> more[q] == tree[q]
  }

  lemma GenesisStays(more: Tree, tree: Tree, p: Ptr)
    requires Extends(more, tree, p) && OneGenesis(tree) && (more[p].nHeight > 0 || tree == map[])
    ensures OneGenesis(more)
  {
    if tree == map[] {
      assert GenesisIs(more, p);
    } else {
      var g :| GenesisIs(tree, g);
      assert GenesisIs(more, g);
    }
  }

  lemma ExtendedChain(more: Tree, tree: Tree, p: Ptr, c: seq<Ptr>)
    requires Extends(more, tree, p) && IsChain(tree, c)
    ensures IsChain(more, c)
  {
    if c != [] {
      forall i | 0 <= i < |c| ensures c[i] == AncestorAt(more, Last(c), i) {
        SharedAncestor(tree, more, Last(c), i);
      }
    }
  }

  lemma {:induction false} ExtendedFirst(more: Tree, tree: Tree, verdict: Ptr -> Outcome, p: Ptr, q: Ptr)
    requires Extends(more, tree, p) && q in tree
    ensures First(more, verdict, q) == First(tree, verdict, q)
    decreases tree[q].nHeight
  {
    if tree[q].nHeight > 0 {
      ExtendedFirst(more, tree, verdict, p, tree[q].pprev);
    }
  }

  lemma ExtendedMarks(more: Tree, tree: Tree, verdict: Ptr -> Outcome, p: Ptr, ready: set<Ptr>, failed: set<Ptr>,
                      candidates: set<Ptr>)
    requires Extends(more, tree, p) && MarksOk(tree, verdict, ready, failed, candidates, NULL)
    ensures MarksOk(more, verdict, ready + {p}, failed, candidates + {p}, NULL)
  {
    forall q | q in failed ensures Bad(more, verdict, q) {
      ExtendedFirst(more, tree, verdict, p, q);
    }
  }

  lemma {:induction false} ExtendedJournal(more: Tree, tree: Tree, verdict: Ptr -> Outcome, p: Ptr, journal: Journal)
    requires Extends(more, tree, p) && JournalOk(tree, verdict, journal)
    ensures JournalOk(more, verdict, journal)
  {
    if journal.Then? {
      ExtendedJournal(more, tree, verdict, p, journal.before);
    }
  }

  lemma ExtendedActive(more: Tree, tree: Tree, verdict: Ptr -> Outcome, p: Ptr, journal: Journal, c: seq<Ptr>)
    requires Extends(more, tree, p) && ActiveOk(tree, verdict, journal, c)
    ensures ActiveOk(more, verdict, journal, c)
  {
    ExtendedChain(more, tree, p, c);
    ExtendedJournal(more, tree, verdict, p, journal);
  }

  /** A block as it arrives: its name, that of its predecessor, and its work. */
  datatype Arrival = Arrival(hash: Ptr, hashPrev: Ptr, nWork: nat)

  /** A block above a received one breaks a rule. */
  lemma MarkAbove(tree: Tree, verdict: Ptr -> Outcome, ready: set<Ptr>, failed: set<Ptr>, more: set<Ptr>,
                  candidates: set<Ptr>, p: Ptr)
    requires TreeOk(tree) && MarksOk(tree, verdict, ready, failed, candidates, NULL)
    requires p in tree && Bad(tree, verdict, p) && (tree[p].nHeight > 0 ==> tree[p].pprev in ready)
    requires more == failed + {p}
    ensures MarksOk(tree, verdict, ready, more, candidates - {p}, NULL)
  {
    MarkOne(tree, verdict, ready, failed, candidates, NULL, p);
    MarkLast(tree, verdict, ready, failed + {p}, candidates - {p}, p);
  }

  /** A child of the active tip decides for itself. */
  lemma FirstOfChild(tree: Tree, verdict: Ptr -> Outcome, c: seq<Ptr>, p: Ptr)
    requires IsChain(tree, c) && (forall q :: q in c ==> verdict(q) == Connects)
    requires p in tree && (tree[p].nHeight > 0 ==> tree[p].pprev in c)
    ensures First(tree, verdict, p) == verdict(p)
  {
    if tree[p].nHeight > 0 {
      var h :| 0 <= h < |c| && c[h] == tree[p].pprev;
      ChainIsGood(tree, verdict, c, Last(c), h);
    }
  }

  /** A child of the active tip that breaks a rule is marked. */
  lemma MarkNext(tree: Tree, verdict: Ptr -> Outcome, ready: set<Ptr>, failed: set<Ptr>, more: set<Ptr>,
                 candidates: set<Ptr>, c: seq<Ptr>, p: Ptr)
    requires IndexOk(tree, verdict, ready) && MarksOk(tree, verdict, ready, failed, candidates, NULL)
    requires IsChain(tree, c) && (forall q :: q in c ==> verdict(q) == Connects)
    requires p in tree && verdict(p) == Violates && (tree[p].nHeight > 0 ==> tree[p].pprev in c)
    requires more == failed + {p}
    ensures MarksOk(tree, verdict, ready, more, candidates - {p}, NULL)
  {
    FirstOfChild(tree, verdict, c, p);
    MarkAbove(tree, verdict, ready, failed, more, candidates, p);
  }

  /** The first block of a chain above its active part stops it, unless it connects. */
  lemma FirstAbove(tree: Tree, verdict: Ptr -> Outcome, c: seq<Ptr>, d: seq<Ptr>)
    requires IsChain(tree, c) && IsChain(tree, d) && (forall q :: q in c ==> verdict(q) == Connects)
    requires Below(c, d) && |c| < |d| && verdict(d[|c|]) != Connects
    ensures First(tree, verdict, Last(d)) == verdict(d[|c|])
  {
    var p := d[|c|];
    if |c| > 0 {
      PrevAncestor(tree, Last(d), |c|, |c| - 1);
      assert tree[p].pprev == c[|c| - 1];
    }
    FirstOfChild(tree, verdict, c, p);
    FirstOfAncestor(tree, verdict, Last(d), |c|);
  }

  /** Again: a block was refused without being marked. */
  datatype RoundResult = Complete | Retry | Again | Stop

  /** The verdict that ends a round in this way. */
  function OutcomeOf(r: RoundResult): Outcome {
    match r
    case Complete => Connects
    case Retry => Violates
    case Again => Corrupt
    case Stop => SystemError
  }

  /** The marks on entries, the candidates and the best invalid block. */
  datatype Marking = Marking(failedValid: set<Ptr>, failedChild: set<Ptr>, candidates: set<Ptr>, bestInvalid: Ptr)

  /** How activation comes out; Endless when its loop would go on repeating the same round. */
  datatype Ending = ReturnsTrue | ReturnsFalse | Endless

  class ChainManager {
    var tree: Tree
    const verdict: Ptr -> Outcome
    /** Whether undo data and block can be read back when a tip is disconnected. */
    const canDisconnect: Ptr -> bool
    /** Entries whose transactions have been received. */
    var ready: set<Ptr>
    const active: Chain
    const mostWork: Chain
    var failedValid: set<Ptr>
    var failedChild: set<Ptr>
    /** setBlockIndexValid */
    var candidates: set<Ptr>
    var bestInvalid: Ptr
    var nBlockSequenceId: nat
    var journal: Journal

    /** A node that has received blocks and connected none yet. */
    constructor (tree: Tree, verdict: Ptr -> Outcome, canDisconnect: Ptr -> bool, ready: set<Ptr>)
      requires TreeOk(tree) && OneGenesis(tree) && ready <= tree.Keys
      requires forall p :: p in tree && verdict(p) == Connects ==> p in ready
      ensures Valid() && fresh(active) && fresh(mostWork) && active.vChain == []
      ensures this.tree == tree && this.verdict == verdict && this.ready == ready && journal == Start
      ensures this.canDisconnect == canDisconnect
    {
      this.tree, this.verdict, this.canDisconnect, this.ready := tree, verdict, canDisconnect, ready;
      active := new Chain(tree);
      mostWork := new Chain(tree);
      failedValid, failedChild, candidates, bestInvalid := {}, {}, ready, NULL;
      nBlockSequenceId, journal := |tree|, Start;
    }

    predicate Failed(p: Ptr)
      reads this`failedValid, this`failedChild
    {
      p in failedValid || p in failedChild
    }

    function AllFailed(): set<Ptr>
      reads this`failedValid, this`failedChild
    {
      failedValid + failedChild
    }

    ghost predicate ChainsOk()
      reads this`tree, this`ready, this`journal, active, mostWork
    {
      && active != mostWork && active.tree == tree && mostWork.tree == tree
      && IndexOk(tree, verdict, ready) && IsChain(tree, mostWork.vChain)
      && ActiveOk(tree, verdict, journal, active.vChain)
    }

    ghost predicate Marked()
      reads this`tree, this`ready, this`journal, this`failedValid, this`failedChild, this`candidates, active, mostWork
    {
      ChainsOk() && MarksOk(tree, verdict, ready, AllFailed(), candidates, NULL)
    }

    ghost predicate Valid()
      reads this`tree, this`ready, this`journal, this`failedValid, this`failedChild, this`candidates, active, mostWork
    {
      && Marked()
      && (mostWork.Tip() != NULL ==> Failed(mostWork.Tip()) || mostWork.Tip() in ready)
    }

    /** In case the current best is failed, do not consider it. */
    method PopFailed()
      requires Valid()
      modifies this`candidates, mostWork`vChain
      ensures Valid() && candidates == old(candidates)
      ensures mostWork.Tip() != NULL ==> mostWork.Tip() in candidates
      ensures old(mostWork.Tip() != NULL && !Failed(mostWork.Tip())) ==> mostWork.vChain == old(mostWork.vChain)
    {
      while mostWork.Tip() != NULL && Failed(mostWork.Tip())
        invariant Marked() && candidates == old(candidates)
        invariant mostWork.Tip() != NULL ==> Failed(mostWork.Tip()) || mostWork.Tip() in ready
        invariant old(mostWork.Tip() != NULL && !Failed(mostWork.Tip())) ==> mostWork.vChain == old(mostWork.vChain)
        decreases |mostWork.vChain|
      {
        PopOne();
      }
    }

    method PopOne()
      requires Marked() && mostWork.Tip() != NULL && Failed(mostWork.Tip())
      modifies this`candidates, mostWork`vChain
      ensures Marked() && candidates == old(candidates) && |mostWork.vChain| < old(|mostWork.vChain|)
      ensures mostWork.Tip() != NULL ==> Failed(mostWork.Tip()) || mostWork.Tip() in ready
    {
      var tip := mostWork.Tip();
      candidates := candidates - {tip};
      assert candidates == old(candidates);
      assert tree[tip].nHeight > 0 ==> Failed(tree[tip].pprev) || tree[tip].pprev in ready;
      var _ := mostWork.SetTip(tree[tip].pprev);
    }

    /** The last element of the ordered set. */
    method MaxCandidate() returns (best: Ptr)
      requires candidates != {} && candidates <= tree.Keys
      ensures best in candidates && forall c :: c in candidates ==> !Less(tree, best, c)
    {
      best :| best in candidates;
      var rest := candidates - {best};
      while rest != {}
        invariant rest <= candidates && best in candidates
        invariant forall c :: c in candidates && c !in rest ==> !Less(tree, best, c)
        decreases |rest|
      {
        var c :| c in rest;
        rest := rest - {c};
        if Less(tree, best, c) {
          forall d | d in candidates && d !in rest ensures !Less(tree, c, d) {
            LessIsTotalOrder(tree, best, c, d);
          }
          best := c;
        }
      }
    }

    /** Walk from a candidate down to the active chain, looking for a failed block. */
    method FirstFailed(pindexNew: Ptr) returns (t: Ptr)
      requires Marked() && pindexNew in tree
      ensures t == NULL <==> CleanAbove(tree, AllFailed(), pindexNew, -1)
      ensures t != NULL ==> OnChainOf(tree, t, pindexNew) && Failed(t)
    {
      t := pindexNew;
      while t != NULL && !active.Contains(t)
        invariant t != NULL ==> OnChainOf(tree, t, pindexNew)
        invariant CleanAbove(tree, AllFailed(), pindexNew, if t == NULL then -1 else tree[t].nHeight)
        decreases if t == NULL then 0 else tree[t].nHeight + 1
      {
        if Failed(t) {
          return;
        }
        CleanStep(tree, AllFailed(), pindexNew, t);
        t := tree[t].pprev;
      }
      if t != NULL {
        CleanDown(tree, verdict, AllFailed(), active.vChain, active.Tip(), pindexNew, t);
      }
      t := NULL;
    }

    /** The path from p has been marked down to last; q, above the failed block t, is next. */
    ghost predicate MarkedDownTo(p: Ptr, t: Ptr, last: Ptr, q: Ptr)
      reads this, active, mostWork
    {
      && ChainsOk() && p in tree && MarksOk(tree, verdict, ready, AllFailed(), candidates, last)
      && OnChainOf(tree, q, p) && OnChainOf(tree, t, p) && tree[q].nHeight >= tree[t].nHeight && Failed(t)
      && (if last == NULL then q == p else last in tree && tree[last].pprev == q && Failed(p))
    }

    method MarkChild(p: Ptr, t: Ptr, ghost last: Ptr, q: Ptr)
      requires MarkedDownTo(p, t, last, q) && q != t
      modifies this`failedChild, this`candidates
      ensures MarkedDownTo(p, t, q, tree[q].pprev) && tree[tree[q].pprev].nHeight < tree[q].nHeight
      ensures failedChild == old(failedChild) + {q} && candidates == old(candidates) - {q}
    {
      var marked := failedChild + {q};
      ghost var more := failedValid + marked;
      assert more == AllFailed() + {q};
      MarkAncestor(tree, verdict, ready, AllFailed(), candidates, more, last, p, q, t);
      failedChild := marked;
      candidates := candidates - {q};
      assert ChainsOk() && AllFailed() == more;
    }

    /** Mark a candidate and its ancestors down to the failed one, and drop them from the set. */
    method MarkChildren(pindexNew: Ptr, t: Ptr)
      requires Marked() && pindexNew in candidates && OnChainOf(tree, t, pindexNew) && Failed(t)
      modifies this`failedChild, this`candidates
      ensures Marked() && old(failedChild) <= failedChild && Failed(pindexNew)
      ensures candidates < old(candidates)
    {
      var q := pindexNew;
      ghost var last := NULL;
      while q != t
        invariant MarkedDownTo(pindexNew, t, last, q)
        invariant old(failedChild) <= failedChild && candidates <= old(candidates)
        decreases tree[q].nHeight
      {
        MarkChild(pindexNew, t, last, q);
        last := q;
        q := tree[q].pprev;
      }
      MarkLast(tree, verdict, ready, AllFailed(), candidates, last);
      assert pindexNew !in candidates;
    }

    /** pindexBestInvalid: the most work seen on a chain known to be invalid. */
    method NoteInvalid(p: Ptr)
      requires Marked() && p in tree
      modifies this`bestInvalid
      ensures Marked()
      ensures bestInvalid in tree && tree[bestInvalid].nChainWork >= tree[p].nChainWork
      ensures bestInvalid == p || bestInvalid == old(bestInvalid)
    {
      if bestInvalid !in tree || tree[p].nChainWork > tree[bestInvalid].nChainWork {
        bestInvalid := p;
      }
    }

    /** The best candidate whose path to the active chain holds no failed block; failed paths are marked on the way. */
    method BestCleanCandidate(ghost kept: Ptr) returns (best: Ptr)
      requires Marked()
      modifies this`failedChild, this`candidates, this`bestInvalid
      ensures Marked()
      ensures old(failedChild) <= failedChild && candidates <= old(candidates)
      ensures best == NULL ==> candidates == {}
      ensures best != NULL ==> best in candidates && CleanAbove(tree, AllFailed(), best, -1)
      ensures best != NULL ==> forall c :: c in candidates ==> !Less(tree, best, c)
      ensures kept != NULL && old(CleanBest(kept)) ==>
                best == kept && Marks() == old(Marks())
    {
      var done := false;
      best := NULL;
      while !done
        invariant Marked() && old(failedChild) <= failedChild && candidates <= old(candidates)
        invariant done ==> CleanBest(best)
        invariant kept != NULL && old(CleanBest(kept)) ==>
                    && Marks() == old(Marks())
                    && CleanBest(kept) && (done ==> best == kept)
        decreases !done, |candidates|
      {
        ghost var before := candidates;
        done, best := TestBest(kept);
        if !done {
          SmallerSet(candidates, before);
        }
      }
    }

    ghost function Marks(): Marking
      reads this`failedValid, this`failedChild, this`candidates, this`bestInvalid
    {
      Marking(failedValid, failedChild, candidates, bestInvalid)
    }

    /** best ranks highest and has a clean path; NULL when nothing is left. */
    ghost predicate CleanBest(best: Ptr)
      requires TreeOk(tree) && candidates <= tree.Keys
      reads this`tree, this`failedValid, this`failedChild, this`candidates
    {
      if best == NULL then candidates == {}
      else
        && best in candidates && CleanAbove(tree, AllFailed(), best, -1)
        && forall c :: c in candidates ==> !Less(tree, best, c)
    }

    /** One pass of the loop of FindMostWorkChain: the best candidate is clean, or its path is marked. */
    method TestBest(ghost kept: Ptr) returns (done: bool, best: Ptr)
      requires Marked()
      modifies this`failedChild, this`candidates, this`bestInvalid
      ensures Marked() && old(failedChild) <= failedChild
      ensures done ==> CleanBest(best)
      ensures done ==> Marks() == old(Marks())
      ensures !done ==> candidates < old(candidates)
      ensures kept != NULL && old(CleanBest(kept)) ==> done && best == kept
    {
      if candidates == {} {
        return true, NULL;
      }
      best := MaxCandidate();
      if kept in candidates {
        LessIsTotalOrder(tree, best, kept, best);
      }
      var t := FirstFailed(best);
      done := t == NULL;
      if !done {
        NoteInvalid(best);
        MarkChildren(best, t);
      }
    }

    /** The most-work tip is the best candidate and its path is clean. */
    ghost predicate Settled()
      reads this`tree, this`ready, this`journal, this`failedValid, this`failedChild, this`candidates, active, mostWork
    {
      Valid() && mostWork.Tip() != NULL && CleanBest(mostWork.Tip())
    }

    /**
     Afterwards no candidate ranks above the chosen tip.  The chosen tip has a
     clean path, unless it is an old tip kept for this round although it has just
     been found to descend from a failed block.
     */
    method FindMostWorkChain()
      requires Valid()
      modifies this`failedChild, this`candidates, this`bestInvalid, mostWork`vChain
      ensures Valid() && old(AllFailed()) <= AllFailed()
      ensures mostWork.Tip() == NULL ==> candidates == {}
      ensures mostWork.Tip() != NULL ==> forall c :: c in candidates ==> !Less(tree, mostWork.Tip(), c)
      ensures mostWork.Tip() != NULL ==>
                || CleanAbove(tree, AllFailed(), mostWork.Tip(), -1)
                || mostWork.Tip() in AllFailed() - old(AllFailed())
      ensures old(Settled()) ==>
                && mostWork.vChain == old(mostWork.vChain)
                && Marks() == old(Marks())
    {
      PopFailed();
      var kept := mostWork.Tip();
      assert kept != NULL ==> kept in ready && !Failed(kept);
      var best := BestCleanCandidate(kept);
      assert kept != NULL && kept !in candidates ==> kept in AllFailed() - old(AllFailed());
      if best == NULL {
        return;
      }
      if kept != NULL && !Less(tree, kept, best) {
        NoneAbove(tree, candidates, kept, best);
        return;
      }
      var _ := mostWork.SetTip(best);
    }

    /** The active chain is the lower part of the most-work chain. */
    ghost predicate ActiveBelow()
      reads active, mostWork
    {
      Below(active.vChain, mostWork.vChain)
    }

    /** Disconnect active blocks that are not on the best chain; the genesis block is never reached. */
    method DisconnectToFork() returns (ok: bool)
      requires ChainsOk() && mostWork.Tip() != NULL
      modifies active`vChain, this`journal
      ensures ChainsOk()
      ensures ok ==> ActiveBelow()
      ensures !ok ==> !Undoable(tree, verdict, canDisconnect)
      ensures old(ActiveBelow()) ==> ok && active.vChain == old(active.vChain) && journal == old(journal)
    {
      while active.Tip() != NULL && !mostWork.Contains(active.Tip())
        invariant ChainsOk()
        invariant old(ActiveBelow()) ==> active.vChain == old(active.vChain) && journal == old(journal)
        decreases |active.vChain|
      {
        var tip := active.Tip();
        NotGenesis(tip);
        if !canDisconnect(tip) {
          ChainIsGood(tree, verdict, active.vChain, tip, |active.vChain| - 1);
          return false;
        }
        DisconnectTip(tip);
      }
      if active.Tip() != NULL {
        SameBelow(tree, mostWork.vChain, mostWork.Tip(), active.Tip(), tree[active.Tip()].nHeight);
      }
      ok := true;
    }

    lemma NotGenesis(tip: Ptr)
      requires ChainsOk() && tip != NULL && tip == active.Tip() && mostWork.Tip() != NULL && !mostWork.Contains(tip)
      ensures tree[tip].nHeight > 0
    {
      assert tree[mostWork.vChain[0]].nHeight == 0;
    }

    method DisconnectTip(tip: Ptr)
      requires ChainsOk() && tip != NULL && tip == active.Tip() && tree[tip].nHeight > 0
      modifies active`vChain, this`journal
      ensures ChainsOk() && active.vChain + [tip] == old(active.vChain)
    {
      ghost var was := active.vChain;
      var _ := active.SetTip(tree[tip].pprev);
      ShorterChain(tree, verdict, journal, was, active.vChain, tip);
      journal := Then(journal, Disconnected);
    }

    method ConnectTip(p: Ptr)
      requires ChainsOk() && p in tree && tree[p].pprev == active.Tip() && verdict(p) == Connects
      modifies active`vChain, this`journal
      ensures ChainsOk() && active.vChain == old(active.vChain) + [p]
    {
      ghost var was := active.vChain;
      var _ := active.SetTip(p);
      LongerChain(tree, verdict, journal, was, active.vChain, p);
      journal := Then(journal, Connected(p));
    }

    method Refuse(p: Ptr)
      requires Valid() && p in tree && tree[p].pprev == active.Tip() && verdict(p) == Violates
      modifies this`journal
      ensures Valid() && journal == Then(old(journal), Refused(p))
    {
      journal := Then(journal, Refused(p));
    }

    /** The next block of the best chain joins the active chain, or is marked as failed. */
    method ConnectNext() returns (r: Outcome)
      requires Valid() && ActiveBelow() && |active.vChain| < |mostWork.vChain|
      modifies active`vChain, this`journal, this`failedValid, this`candidates, this`bestInvalid
      ensures Valid() && ActiveBelow()
      ensures r == Connects ==> |active.vChain| == old(|active.vChain|) + 1
      ensures r == Violates ==> AllFailed() == old(AllFailed()) + {old(mostWork.vChain[|active.vChain|])}
      ensures r != Violates ==> Marks() == old(Marks())
      ensures r == Corrupt || r == SystemError ==> active.vChain == old(active.vChain) && journal == old(journal)
      ensures r == old(verdict(mostWork.vChain[|active.vChain|]))
    {
      var p := mostWork.At(active.Height() + 1);
      ParentIsTip(p);
      r := verdict(p);
      match r
      case Connects =>
        ConnectBest(p);
      case Violates =>
        Reject(p);
      case Corrupt =>
      case SystemError =>
    }

    method ConnectBest(p: Ptr)
      requires Valid() && ActiveBelow() && |active.vChain| < |mostWork.vChain| && p == mostWork.vChain[|active.vChain|]
      requires p in tree && tree[p].pprev == active.Tip() && verdict(p) == Connects
      modifies active`vChain, this`journal
      ensures Valid() && ActiveBelow() && |active.vChain| == old(|active.vChain|) + 1
    {
      ConnectTip(p);
    }

    /** The block is marked, and the best chain that it spoils is noted as invalid with it. */
    method Reject(p: Ptr)
      requires Valid() && p in tree && verdict(p) == Violates && tree[p].pprev == active.Tip() && mostWork.Tip() != NULL
      modifies this`journal, this`failedValid, this`candidates, this`bestInvalid
      ensures Valid() && AllFailed() == old(AllFailed()) + {p}
      ensures bestInvalid in tree && tree[bestInvalid].nChainWork >= tree[mostWork.Tip()].nChainWork
    {
      Refuse(p);
      MarkViolation(p);
      NoteInvalid(mostWork.Tip());
    }

    /** The assertion of ConnectTip: the block to connect is a child of the active tip. */
    lemma ParentIsTip(p: Ptr)
      requires ChainsOk() && ActiveBelow() && |active.vChain| < |mostWork.vChain|
      requires p == mostWork.vChain[|active.vChain|]
      ensures p in tree && tree[p].nHeight == |active.vChain| && tree[p].pprev == active.Tip()
    {
      if |active.vChain| > 0 {
        PrevAncestor(tree, mostWork.Tip(), |active.vChain|, |active.vChain| - 1);
      }
    }

    method MarkFailed(p: Ptr)
      requires Valid() && p in tree && verdict(p) == Violates
      requires tree[p].nHeight > 0 ==> tree[p].pprev in active.vChain
      modifies this`failedValid, this`candidates
      ensures Valid() && AllFailed() == old(AllFailed()) + {p}
    {
      ghost var more, fewer := failedValid + {p} + failedChild, candidates - {p};
      assert more == AllFailed() + {p};
      MarkNext(tree, verdict, ready, AllFailed(), more, candidates, active.vChain, p);
      failedValid := failedValid + {p};
      candidates := candidates - {p};
      assert AllFailed() == more && candidates == fewer;
    }

    /** InvalidBlockFound. */
    method MarkViolation(p: Ptr)
      requires Valid() && p in tree && verdict(p) == Violates
      requires tree[p].nHeight > 0 ==> tree[p].pprev in active.vChain
      modifies this`failedValid, this`candidates, this`bestInvalid
      ensures Valid() && AllFailed() == old(AllFailed()) + {p}
    {
      MarkFailed(p);
      NoteInvalid(p);
    }

    /** The next block of the most-work chain is refused without being marked. */
    ghost predicate NextIsCorrupt()
      reads active, mostWork
    {
      && ActiveBelow() && |active.vChain| < |mostWork.vChain|
      && verdict(mostWork.vChain[|active.vChain|]) == Corrupt
    }

    /** One block of the best chain: it connects, or the round is over. */
    method ConnectOne() returns (done: bool, r: RoundResult)
      requires Valid() && ActiveBelow() && mostWork.Tip() != NULL && !active.Contains(mostWork.Tip())
      modifies active`vChain, this`journal, this`failedValid, this`candidates, this`bestInvalid
      ensures Valid() && ActiveBelow()
      ensures !done ==> |active.vChain| == old(|active.vChain|) + 1
      ensures done ==> r != Complete && First(tree, verdict, mostWork.Tip()) == OutcomeOf(r)
      ensures done && r == Retry ==> AllFailed() == old(AllFailed()) + {old(mostWork.vChain[|active.vChain|])}
      ensures !done || r != Retry ==> Marks() == old(Marks())
      ensures done && r == Again ==> NextIsCorrupt()
      ensures old(NextIsCorrupt()) ==>
                done && r == Again && active.vChain == old(active.vChain) && journal == old(journal)
    {
      NotYetThere();
      TipDecides();
      var outcome := ConnectNext();
      done := outcome != Connects;
      r := match outcome
      case Connects => Complete
      case Violates => Retry
      case Corrupt => Again
      case SystemError => Stop;
    }

    /** Connect the blocks of the best chain one by one; how that ends is decided by its tip. */
    method ConnectAll() returns (r: RoundResult)
      requires Valid() && ActiveBelow() && mostWork.Tip() != NULL
      modifies active`vChain, this`journal, this`failedValid, this`candidates, this`bestInvalid
      ensures Valid() && old(AllFailed()) <= AllFailed()
      ensures First(tree, verdict, mostWork.Tip()) == OutcomeOf(r)
      ensures r == Complete ==> active.vChain == mostWork.vChain
      ensures r != Retry ==> Marks() == old(Marks())
      ensures r == Retry && CleanAbove(tree, old(AllFailed()), mostWork.Tip(), -1) ==> old(AllFailed()) < AllFailed()
      ensures r == Again ==> NextIsCorrupt()
      ensures old(NextIsCorrupt()) ==> r == Again && active.vChain == old(active.vChain) && journal == old(journal)
    {
      ghost var stuck := NextIsCorrupt();
      while !active.Contains(mostWork.Tip())
        invariant Valid() && ActiveBelow()
        invariant Marks() == old(Marks())
        invariant stuck ==> NextIsCorrupt() && active.vChain == old(active.vChain) && journal == old(journal)
        decreases |mostWork.vChain| - |active.vChain|
      {
        NotYetThere();
        var done;
        done, r := ConnectOne();
        if done {
          return;
        }
      }
      AllThere();
      r := Complete;
    }

    /** The first block that does not connect decides about the chain. */
    lemma TipDecides()
      requires ChainsOk() && ActiveBelow() && |active.vChain| < |mostWork.vChain|
      ensures var o := verdict(mostWork.vChain[|active.vChain|]);
              o != Connects ==> First(tree, verdict, mostWork.Tip()) == o
    {
      if verdict(mostWork.vChain[|active.vChain|]) != Connects {
        FirstAbove(tree, verdict, active.vChain, mostWork.vChain);
      }
    }

    lemma AllThere()
      requires ChainsOk() && ActiveBelow() && mostWork.Tip() != NULL && active.Contains(mostWork.Tip())
      ensures active.vChain == mostWork.vChain && First(tree, verdict, mostWork.Tip()) == Connects
      ensures !NextIsCorrupt()
    {
      assert |active.vChain| == |mostWork.vChain|;
      ChainIsGood(tree, verdict, active.vChain, active.Tip(), |active.vChain| - 1);
    }

    lemma NotYetThere()
      requires ChainsOk() && ActiveBelow() && mostWork.Tip() != NULL && !active.Contains(mostWork.Tip())
      ensures |active.vChain| < |mostWork.vChain|
    {
    }

    /** What ActivateBestChain promises: nothing received and valid all the way down beats the active tip. */
    ghost predicate BestIsActive()
      requires ChainsOk()
      reads this`tree, this`ready, this`journal, this`failedValid, this`failedChild, this`candidates, active, mostWork
    {
      && active.vChain == mostWork.vChain
      && (forall p :: p in active.vChain ==> !Failed(p))
      && (forall c :: c in candidates ==> c in tree && active.Tip() != NULL && !Less(tree, active.Tip(), c))
      && (forall p :: p in ready && p in tree && !Bad(tree, verdict, p) ==> p in candidates)
    }

    /** No candidate ranks above the most-work tip. */
    ghost predicate NoneBeats()
      requires TreeOk(tree) && candidates <= tree.Keys && (mostWork.Tip() == NULL || mostWork.Tip() in tree)
      reads this`tree, this`candidates, mostWork
    {
      if mostWork.Tip() == NULL then candidates == {}
      else forall c :: c in candidates ==> !Less(tree, mostWork.Tip(), c)
    }

    lemma RoundComplete()
      requires Valid() && active.vChain == mostWork.vChain && NoneBeats()
      ensures BestIsActive()
    {
      forall p | p in active.vChain ensures !Failed(p) {
        var h :| 0 <= h < |active.vChain| && active.vChain[h] == p;
        ChainIsGood(tree, verdict, active.vChain, active.Tip(), h);
      }
    }

    /** The active tip is always a candidate. */
    lemma ActiveTipIsCandidate()
      requires Valid()
      ensures active.vChain != [] ==> active.Tip() in candidates
    {
      if active.vChain != [] {
        ChainIsGood(tree, verdict, active.vChain, active.Tip(), |active.vChain| - 1);
        assert active.Tip() in tree && verdict(active.Tip()) == Connects;
      }
    }

    /** An entry that nothing forbids has no failed ancestor. */
    lemma NotBadIsClean(p: Ptr)
      requires Marked() && p in tree && !Bad(tree, verdict, p)
      ensures CleanAbove(tree, AllFailed(), p, -1)
    {
      forall h: nat | h <= tree[p].nHeight ensures AncestorAt(tree, p, h) !in AllFailed() {
        FirstOfAncestor(tree, verdict, p, h);
      }
    }

    /** A most-work tip that no candidate beats and that breaks no rule is the best block there is. */
    lemma TipIsTop()
      requires Valid() && mostWork.Tip() != NULL && forall c :: c in candidates ==> !Less(tree, mostWork.Tip(), c)
      ensures !Bad(tree, verdict, mostWork.Tip()) ==>
                Settled() && Decided(tree, verdict, ready, First(tree, verdict, mostWork.Tip()))
    {
      if !Bad(tree, verdict, mostWork.Tip()) {
        NotBadIsClean(mostWork.Tip());
        assert Top(tree, verdict, ready, mostWork.Tip());
      }
    }

    lemma NothingLeft()
      requires Valid() && candidates == {}
      ensures Decided(tree, verdict, ready, Connects)
    {
      assert forall b :: b in ready && b !in AllFailed() ==> b in candidates;
    }

    /** The next round can only repeat the last one. */
    ghost predicate Stuck()
      reads this`tree, this`ready, this`journal, this`failedValid, this`failedChild, this`candidates, active, mostWork
    {
      Settled() && NextIsCorrupt()
    }

    /** Disconnecting touches no mark. */
    method GoToFork() returns (ok: bool)
      requires Valid() && mostWork.Tip() != NULL
      modifies active`vChain, this`journal
      ensures Valid()
      ensures ok ==> ActiveBelow()
      ensures !ok ==> !Undoable(tree, verdict, canDisconnect)
      ensures old(ActiveBelow()) ==> ok && active.vChain == old(active.vChain) && journal == old(journal)
    {
      ok := DisconnectToFork();
    }

    /** The second half of a pass: disconnect down to the fork and connect up to the most-work tip. */
    method SwitchToTip() returns (r: RoundResult)
      requires Valid() && mostWork.Tip() != NULL
      modifies this`failedValid, this`candidates, this`bestInvalid, this`journal, active`vChain
      ensures Valid() && old(AllFailed()) <= AllFailed()
      ensures r == Complete ==> active.vChain == mostWork.vChain
      ensures || First(tree, verdict, mostWork.Tip()) == OutcomeOf(r)
              || (r == Stop && !Undoable(tree, verdict, canDisconnect))
      ensures r == Retry && CleanAbove(tree, old(AllFailed()), mostWork.Tip(), -1) ==> old(AllFailed()) < AllFailed()
      ensures r != Retry ==> Marks() == old(Marks())
      ensures r == Again ==> NextIsCorrupt()
      ensures r != Retry && old(CleanBest(mostWork.Tip())) ==> CleanBest(mostWork.Tip())
      ensures old(NextIsCorrupt()) ==>
                r == Again && active.vChain == old(active.vChain) && journal == old(journal)
    {
      var ok := GoToFork();
      r := Stop;
      if ok {
        r := ConnectAll();
      }
    }

    /** A pass of the outer loop; what it leaves of the best chain is said by Round. */
    method Pass() returns (r: RoundResult)
      requires Valid()
      modifies this`failedValid, this`failedChild, this`candidates, this`bestInvalid, this`journal
      modifies active`vChain, mostWork`vChain
      ensures Valid() && old(AllFailed()) <= AllFailed()
      ensures r == Retry ==> old(AllFailed()) < AllFailed()
      ensures r == Complete ==> active.vChain == mostWork.vChain && NoneBeats()
      ensures r != Retry ==>
                || Decided(tree, verdict, ready, OutcomeOf(r))
                || (r == Stop && !Undoable(tree, verdict, canDisconnect))
      ensures r == Again ==> Stuck()
      ensures old(Stuck()) ==>
                && r == Again && Marks() == old(Marks()) && journal == old(journal)
                && active.vChain == old(active.vChain) && mostWork.vChain == old(mostWork.vChain)
    {
      FindMostWorkChain();
      if mostWork.Tip() == NULL {
        ActiveTipIsCandidate();
        NothingLeft();
        return Complete;
      }
      TipIsTop();
      ghost var ends := First(tree, verdict, mostWork.Tip());
      r := SwitchToTip();
      assert OutcomeOf(r) == ends || (r == Stop && !Undoable(tree, verdict, canDisconnect));
    }

    /**
     One pass of the outer loop.  A pass that ends in Retry has marked at least one
     more block; any other end is decided by the best block whose chain breaks no
     rule; and a pass that ends in Again will be repeated without change.
     */
    method Round() returns (r: RoundResult)
      requires Valid()
      modifies this`failedValid, this`failedChild, this`candidates, this`bestInvalid, this`journal
      modifies active`vChain, mostWork`vChain
      ensures Valid() && old(AllFailed()) <= AllFailed()
      ensures r == Retry ==> old(AllFailed()) < AllFailed()
      ensures r == Complete ==> BestIsActive()
      ensures r != Retry ==>
                || Decided(tree, verdict, ready, OutcomeOf(r))
                || (r == Stop && !Undoable(tree, verdict, canDisconnect))
      ensures r == Again ==> Stuck()
      ensures old(Stuck()) ==>
                && r == Again && Marks() == old(Marks()) && journal == old(journal)
                && active.vChain == old(active.vChain) && mostWork.vChain == old(mostWork.vChain)
    {
      r := Pass();
      if r == Complete {
        RoundComplete();
      }
    }

    /**
     Every pass that has to be repeated and changes anything marks another block.
     On success the active chain is the most-work chain, nothing on it is failed
     and no received block whose chain breaks no rule ranks above its tip.  If
     every block that can be active can be disconnected, the end is the one that
     the best such block decides: the loop goes on forever exactly if the first
     block of its chain that does not connect is refused without being marked.
     */
    method ActivateBestChain() returns (r: Ending)
      requires Valid()
      modifies this`failedValid, this`failedChild, this`candidates, this`bestInvalid, this`journal
      modifies active`vChain, mostWork`vChain
      ensures Valid() && old(AllFailed()) <= AllFailed()
      ensures r == ReturnsTrue ==> BestIsActive() && Decided(tree, verdict, ready, Connects)
      ensures r == Endless ==> Stuck() && Decided(tree, verdict, ready, Corrupt)
      ensures r == ReturnsFalse ==>
                Decided(tree, verdict, ready, SystemError) || !Undoable(tree, verdict, canDisconnect)
      ensures Undoable(tree, verdict, canDisconnect) ==> (r == Endless <==> Decided(tree, verdict, ready, Corrupt))
    {
      while true
        invariant Valid() && old(AllFailed()) <= AllFailed()
        decreases Unmarked()
      {
        var round := RoundDown();
        if round != Retry {
          r := match round case Complete => ReturnsTrue case Again => Endless case _ => ReturnsFalse;
          CorruptOnce(OutcomeOf(round));
          return;
        }
      }
    }

    lemma CorruptOnce(o: Outcome)
      requires TreeOk(tree) && ready <= tree.Keys
      ensures Decided(tree, verdict, ready, o) && Decided(tree, verdict, ready, Corrupt) ==> o == Corrupt
    {
      if Decided(tree, verdict, ready, o) && Decided(tree, verdict, ready, Corrupt) {
        DecidedOnce(tree, verdict, ready, o, Corrupt);
      }
    }

    /** After a round that ends in Again, any number of further rounds change nothing and end in the same way. */
    method RepeatRounds(n: nat)
      requires Stuck()
      modifies this`failedValid, this`failedChild, this`candidates, this`bestInvalid, this`journal
      modifies active`vChain, mostWork`vChain
      ensures Stuck() && Marks() == old(Marks()) && journal == old(journal)
      ensures active.vChain == old(active.vChain) && mostWork.vChain == old(mostWork.vChain)
    {
      for i := 0 to n
        invariant Stuck() && Marks() == old(Marks()) && journal == old(journal)
        invariant active.vChain == old(active.vChain) && mostWork.vChain == old(mostWork.vChain)
      {
        var r := Round();
        assert r == Again;
      }
    }

    /** How many entries are not marked as failed. */
    ghost function Unmarked(): nat
      reads this`tree, this`failedValid, this`failedChild
    {
      |tree.Keys - AllFailed()|
    }

    method RoundDown() returns (r: RoundResult)
      requires Valid()
      modifies this`failedValid, this`failedChild, this`candidates, this`bestInvalid, this`journal
      modifies active`vChain, mostWork`vChain
      ensures Valid() && old(AllFailed()) <= AllFailed()
      ensures r == Retry ==> Unmarked() < old(Unmarked())
      ensures r == Complete ==> BestIsActive()
      ensures r != Retry ==>
                || Decided(tree, verdict, ready, OutcomeOf(r))
                || (r == Stop && !Undoable(tree, verdict, canDisconnect))
      ensures r == Again ==> Stuck()
    {
      r := Round();
      if r == Retry {
        FewerUnmarked(tree, old(AllFailed()), AllFailed());
      }
    }

    /** A new entry of the block index, above its predecessor or as the genesis block. */
    method Insert(block: Arrival)
      requires Valid() && block.hash != NULL && block.hash !in tree
      requires block.hashPrev in tree || (block.hashPrev == NULL && tree == map[])
      modifies this`tree, this`ready, this`candidates, this`nBlockSequenceId, active`tree, mostWork`tree
      ensures Valid() && Extends(tree, old(tree), block.hash)
      ensures tree[block.hash].pprev == block.hashPrev && tree[block.hash].nSequenceId == old(nBlockSequenceId)
      ensures tree[block.hash].nChainWork ==
              block.nWork + if block.hashPrev in old(tree) then old(tree)[block.hashPrev].nChainWork else 0
      ensures ready == old(ready) + {block.hash} && candidates == old(candidates) + {block.hash}
    {
      var p, prev := block.hash, block.hashPrev;
      var entry := if prev in tree
                   then Entry(prev, tree[prev].nHeight + 1, tree[prev].nChainWork + block.nWork, nBlockSequenceId)
                   else Entry(NULL, 0, block.nWork, nBlockSequenceId);
      var more := tree[p := entry];
      GenesisStays(more, tree, p);
      ExtendedMarks(more, tree, verdict, p, ready, AllFailed(), candidates);
      ExtendedActive(more, tree, verdict, p, journal, active.vChain);
      ExtendedChain(more, tree, p, mostWork.vChain);
      nBlockSequenceId := nBlockSequenceId + 1;
      tree, active.tree, mostWork.tree := more, more, more;
      ready := ready + {p};
      candidates := candidates + {p};
    }

    /**
     AddToBlockIndex: a block that is not there yet enters the index, and the
     best chain is activated.  That its predecessor is known has been checked
     by the caller, AcceptBlock.
     */
    method AddToBlockIndex(block: Arrival) returns (r: Ending)
      requires Valid() && block.hash != NULL
      requires block.hash in tree || block.hashPrev in tree || (block.hashPrev == NULL && tree == map[])
      modifies this`tree, this`ready, this`nBlockSequenceId, active`tree, mostWork`tree
      modifies this`failedValid, this`failedChild, this`candidates, this`bestInvalid, this`journal
      modifies active`vChain, mostWork`vChain
      ensures Valid() && old(AllFailed()) <= AllFailed()
      ensures tree.Keys == old(tree).Keys + {block.hash}
      ensures old(block.hash in tree) ==> r == ReturnsFalse && tree == old(tree) && active.vChain == old(active.vChain)
      ensures r == ReturnsTrue ==> BestIsActive() && block.hash in ready
      ensures r == Endless ==> Stuck()
    {
      if block.hash in tree {
        return ReturnsFalse;
      }
      Insert(block);
      r := ActivateBestChain();
    }

    /**
     Whatever arrives in whatever order: the last block accepted leaves the best
     chain active.  No block is taken any more once activation goes on forever.
     */
    method Session(blocks: seq<Arrival>) returns (r: Ending)
      requires Valid()
      modifies this`tree, this`ready, this`nBlockSequenceId, active`tree, mostWork`tree
      modifies this`failedValid, this`failedChild, this`candidates, this`bestInvalid, this`journal
      modifies active`vChain, mostWork`vChain
      ensures Valid() && old(AllFailed()) <= AllFailed() && old(tree).Keys <= tree.Keys
      ensures r == ReturnsTrue ==> BestIsActive()
      ensures r == Endless ==> Stuck()
    {
      r := ReturnsFalse;
      for i := 0 to |blocks|
        invariant Valid() && old(AllFailed()) <= AllFailed() && old(tree).Keys <= tree.Keys
        invariant r == ReturnsTrue ==> BestIsActive()
        invariant r != Endless
      {
        var block := blocks[i];
        var known := block.hashPrev in tree || (block.hashPrev == NULL && tree == map[]);
        if block.hash != NULL && block.hash !in tree && known {
          r := AddToBlockIndex(block);
          if r == Endless {
            return;
          }
        }
      }
    }
  }

  // ----- activation that does not end -----

  /** The genesis block and one block above it. */
  const TWO_BLOCKS: Tree := map[1 := Entry(NULL, 0, 1, 0), 2 := Entry(1, 1, 2, 1)]

  /** The upper block is refused as possibly damaged. */
  function UpperIsCorrupt(p: Ptr): Outcome {
    if p == 2 then Corrupt else Connects
  }

  lemma CorruptDecides()
    ensures TreeOk(TWO_BLOCKS) && OneGenesis(TWO_BLOCKS)
    ensures Decided(TWO_BLOCKS, UpperIsCorrupt, {1, 2}, Corrupt)
  {
    assert GenesisIs(TWO_BLOCKS, 1);
    assert First(TWO_BLOCKS, UpperIsCorrupt, 1) == Connects;
    assert First(TWO_BLOCKS, UpperIsCorrupt, 2) == Corrupt;
    assert Top(TWO_BLOCKS, UpperIsCorrupt, {1, 2}, 2);
  }

  /** With one such block, activation ends in no number of rounds. */
  method EndlessActivation(n: nat) returns (m: ChainManager, r: Ending)
    ensures r == Endless && m.Stuck()
  {
    CorruptDecides();
    var canDisconnect: Ptr -> bool := _ => true;
    m := new ChainManager(TWO_BLOCKS, UpperIsCorrupt, canDisconnect, {1, 2});
    assert Undoable(m.tree, m.verdict, m.canDisconnect);
    assert Decided(m.tree, m.verdict, m.ready, Corrupt);
    r := m.ActivateBestChain();
    assert r == Endless;
    m.RepeatRounds(n);
  }

  /** An entry that the best candidate does not beat is beaten by no candidate. */
  lemma NoneAbove(tree: Tree, candidates: set<Ptr>, kept: Ptr, best: Ptr)
    requires candidates <= tree.Keys && kept in tree && best in candidates && !Less(tree, kept, best)
    requires forall c :: c in candidates ==> !Less(tree, best, c)
    ensures forall c :: c in candidates ==> !Less(tree, kept, c)
    ensures kept in candidates ==> kept == best
  {
    forall c | c in candidates ensures !Less(tree, kept, c) {
      LessIsTotalOrder(tree, best, c, kept);
      LessIsTotalOrder(tree, kept, best, c);
    }
  }

  lemma FewerUnmarked(tree: Tree, before: set<Ptr>, after: set<Ptr>)
    requires before < after <= tree.Keys
    ensures |tree.Keys - after| < |tree.Keys - before|
  {
    SmallerSet(tree.Keys - after, tree.Keys - before);
  }

  lemma SmallerSet(a: set<Ptr>, b: set<Ptr>)
    requires a < b
    ensures |a| < |b|
  {
    assert |b| == |a| + |b - a|;
    assert b - a != {};
  }
}
