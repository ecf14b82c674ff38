/**
 Every interleaving of the check queue: thread 0 is the master, the others are
 workers.  Steps are the critical sections of module CheckQueue, the execution of
 one check outside the lock, and waking up, possibly spuriously.

 Main results: RunIsSafe (Wait returns true exactly when every check added in its
 round holds), ControlAssertions (the queue is idle between rounds), WaitIsBounded
 and WaitReturns (Wait returns unless wake-ups are spurious forever).
 */
module CheckQueueRuns {
  import opened CheckQueue

  datatype Thread =
    | Outside
    | Waiting(notified: bool)
    | Working(batch: seq<Check>, next: nat, fOk: bool)

  /** Where the master is in its round: between rounds, adding checks, or inside Loop. */
  datatype Phase = Between | Adding | InLoop

  datatype Round = Round(added: seq<Check>, result: bool)

  /** added and merged record the current round; finished records every completed one. */
  datatype State = State(sh: Shared, threads: seq<Thread>, phase: Phase,
                         added: seq<Check>, merged: seq<Check>, finished: seq<Round>)

  // ----- counting over the threads -----

  function HeldBy(t: Thread, c: Check): nat {
    if t.Working? then multiset(t.batch)[c] else 0
  }

  /** How often a check occurs in batches that are not merged yet. */
  function Held(ts: seq<Thread>, c: Check): nat {
    if ts == [] then 0 else Held(ts[..|ts| - 1], c) + HeldBy(ts[|ts| - 1], c)
  }

  function SizeOf(t: Thread): nat {
    if t.Working? then |t.batch| else 0
  }

  function HeldSize(ts: seq<Thread>): nat {
    if ts == [] then 0 else HeldSize(ts[..|ts| - 1]) + SizeOf(ts[|ts| - 1])
  }

  function One(b: bool): nat {
    if b then 1 else 0
  }

  function InLoopCount(ts: seq<Thread>): nat {
    if ts == [] then 0 else InLoopCount(ts[..|ts| - 1]) + One(!ts[|ts| - 1].Outside?)
  }

  function WaitingCount(ts: seq<Thread>): nat {
    if ts == [] then 0 else WaitingCount(ts[..|ts| - 1]) + One(ts[|ts| - 1].Waiting?)
  }

  function NotifiedCount(ts: seq<Thread>): nat {
    if ts == [] then 0 else NotifiedCount(ts[..|ts| - 1]) + One(ts[|ts| - 1].Waiting? && ts[|ts| - 1].notified)
  }

  function ToRun(t: Thread): int {
    if t.Working? then |t.batch| - t.next else 0
  }

  function ToRunCount(ts: seq<Thread>): int {
    if ts == [] then 0 else ToRunCount(ts[..|ts| - 1]) + ToRun(ts[|ts| - 1])
  }

  /** The counts move by what the one thread contributes. */
  lemma {:induction false} TallyUpdate(ts: seq<Thread>, i: nat, t: Thread)
    requires i < |ts|
    ensures InLoopCount(ts[i := t]) == InLoopCount(ts) - One(!ts[i].Outside?) + One(!t.Outside?)
    ensures WaitingCount(ts[i := t]) == WaitingCount(ts) - One(ts[i].Waiting?) + One(t.Waiting?)
    ensures NotifiedCount(ts[i := t]) ==
            NotifiedCount(ts) - One(ts[i].Waiting? && ts[i].notified) + One(t.Waiting? && t.notified)
    ensures ToRunCount(ts[i := t]) == ToRunCount(ts) - ToRun(ts[i]) + ToRun(t)
    ensures HeldSize(ts[i := t]) == HeldSize(ts) - SizeOf(ts[i]) + SizeOf(t)
    decreases |ts|
  {
    var k := |ts| - 1;
    if i == k {
      assert ts[i := t][..k] == ts[..k];
    } else {
      assert ts[i := t][..k] == ts[..k][i := t];
      TallyUpdate(ts[..k], i, t);
    }
  }

  lemma {:induction false} HeldUpdate(ts: seq<Thread>, i: nat, t: Thread, c: Check)
    requires i < |ts|
    ensures Held(ts[i := t], c) == Held(ts, c) - HeldBy(ts[i], c) + HeldBy(t, c)
    decreases |ts|
  {
    var k := |ts| - 1;
    if i == k {
      assert ts[i := t][..k] == ts[..k];
    } else {
      assert ts[i := t][..k] == ts[..k][i := t];
      HeldUpdate(ts[..k], i, t, c);
    }
  }

  lemma {:induction false} TallyBounds(ts: seq<Thread>)
    ensures WaitingCount(ts) <= InLoopCount(ts) && NotifiedCount(ts) <= WaitingCount(ts)
    ensures (forall i :: 0 <= i < |ts| ==> !ts[i].Working?) ==> WaitingCount(ts) == InLoopCount(ts)
  {
    if ts != [] {
      TallyBounds(ts[..|ts| - 1]);
    }
  }

  /** When nothing is held, nobody works and no check is held. */
  lemma {:induction false} HeldByNobody(ts: seq<Thread>, c: Check)
    requires HeldSize(ts) == 0
    requires forall i :: 0 <= i < |ts| && ts[i].Working? ==> |ts[i].batch| >= 1
    ensures forall i :: 0 <= i < |ts| ==> !ts[i].Working?
    ensures Held(ts, c) == 0
  {
    if ts != [] {
      HeldByNobody(ts[..|ts| - 1], c);
    }
  }

  // ----- notifications -----

  function Notified(t: Thread): Thread {
    if t.Waiting? then Waiting(true) else t
  }

  /** notify_all on the workers' condition. */
  function NotifyAllWorkers(ts: seq<Thread>): (r: seq<Thread>)
    ensures |r| == |ts|
    ensures forall i :: 0 <= i < |ts| ==> r[i] == if i == 0 then ts[0] else Notified(ts[i])
  {
    seq(|ts|, i requires 0 <= i < |ts| => if i == 0 then ts[0] else Notified(ts[i]))
  }

  /** Only pending wake-ups changed. */
  ghost predicate OnlyNotified(ts: seq<Thread>, r: seq<Thread>) {
    |r| == |ts| && forall i :: 0 <= i < |ts| ==> r[i] == ts[i] || r[i] == Notified(ts[i])
  }

  /** notify_one on the workers' condition: some worker waiting without a wake-up gets one, if there is any. */
  ghost predicate NotifiesOneWorker(ts: seq<Thread>, r: seq<Thread>, w: nat) {
    if w != 0 && w < |ts| && ts[w] == Waiting(false) then r == ts[w := Waiting(true)]
    else r == ts && forall i :: 0 < i < |ts| ==> ts[i] != Waiting(false)
  }

  lemma {:induction false} OnlyNotifiedTally(ts: seq<Thread>, r: seq<Thread>)
    requires OnlyNotified(ts, r)
    ensures InLoopCount(r) == InLoopCount(ts) && WaitingCount(r) == WaitingCount(ts)
    ensures ToRunCount(r) == ToRunCount(ts) && HeldSize(r) == HeldSize(ts)
    ensures forall c :: Held(r, c) == Held(ts, c)
  {
    if ts != [] {
      var k := |ts| - 1;
      assert OnlyNotified(ts[..k], r[..k]);
      OnlyNotifiedTally(ts[..k], r[..k]);
      assert r[k] == ts[k] || r[k] == Notified(ts[k]);
    }
  }

  // ----- steps -----

  datatype Step =
    | BeginRound
    | Add(checks: seq<Check>, w: nat)
    | Enter(i: nat)
    | Run(i: nat)
    | Merge(i: nat)
    | Wake(i: nat)

  /**
   The rest of the critical section: leave with the result, block, or take a batch.
   */
  function Proceed(s: State, i: nat, nBatchSize: nat): State
    requires i < |s.threads|
  {
    if s.sh.queue == [] then
      if Leaves(s.sh, i == 0) then
        s.(sh := Left(s.sh), threads := s.threads[i := Outside], phase := Between,
           added := [], merged := [], finished := s.finished + [Round(s.added, s.sh.fAllOk)])
      else
        s.(sh := Blocked(s.sh), threads := s.threads[i := Waiting(false)])
    else
      var n := BatchSize(s.sh, nBatchSize);
      s.(sh := Taken(s.sh, n), threads := s.threads[i := Working(Batch(s.sh.queue, n), 0, s.sh.fAllOk)])
  }

  /** A thread calls Loop: a worker at any time, the master to end its round. */
  predicate CanEnter(s: State, i: nat) {
    i < |s.threads| && s.threads[i].Outside? && (i == 0 ==> s.phase == Adding)
  }

  function AfterEnter(s: State, i: nat): State {
    s.(sh := Entered(s.sh), phase := if i == 0 then InLoop else s.phase)
  }

  predicate CanMerge(s: State, i: nat) {
    i < |s.threads| && s.threads[i].Working? && s.threads[i].next == |s.threads[i].batch|
  }

  function AfterMerge(s: State, i: nat): State
    requires CanMerge(s, i)
  {
    var t := s.threads[i];
    var sh := Merged(s.sh, |t.batch|, t.fOk);
    var ts := s.threads[i := Outside];
    s.(sh := sh, merged := s.merged + t.batch,
       threads := if sh.nTodo == 0 && i != 0 then ts[0 := Notified(ts[0])] else ts)
  }

  predicate CanWake(s: State, i: nat) {
    i < |s.threads| && s.threads[i].Waiting?
  }

  function AfterWake(s: State, i: nat): State
    requires CanWake(s, i)
  {
    s.(sh := Woken(s.sh), threads := s.threads[i := Outside])
  }

  predicate CanRun(s: State, i: nat) {
    i < |s.threads| && s.threads[i].Working? && s.threads[i].next < |s.threads[i].batch|
  }

  /** One check executed outside the lock, unless an earlier one has failed. */
  function AfterRun(s: State, i: nat): State
    requires CanRun(s, i)
  {
    var t := s.threads[i];
    s.(threads := s.threads[i := Working(t.batch, t.next + 1, t.fOk && t.batch[t.next].holds)])
  }

  ghost predicate NextStep(s: State, s': State, step: Step, nBatchSize: nat)
    requires |s.threads| > 0
  {
    match step
    case BeginRound =>
      s.phase == Between && s' == s.(phase := Adding)
    case Add(checks, w) =>
      && s.phase == Adding
      && s' == s.(sh := Added(s.sh, checks), added := s.added + checks, threads := s'.threads)
      && (|checks| == 0 ==> s'.threads == s.threads)
      && (|checks| == 1 ==> NotifiesOneWorker(s.threads, s'.threads, w))
      && (|checks| > 1 ==> s'.threads == NotifyAllWorkers(s.threads))
    case Enter(i) =>
      CanEnter(s, i) && s' == Proceed(AfterEnter(s, i), i, nBatchSize)
    case Run(i) =>
      CanRun(s, i) && s' == AfterRun(s, i)
    case Merge(i) =>
      && CanMerge(s, i)
      && s' == Proceed(AfterMerge(s, i), i, nBatchSize)
    case Wake(i) =>
      CanWake(s, i) && s' == Proceed(AfterWake(s, i), i, nBatchSize)
  }

  ghost predicate Init(s: State) {
    && s.sh == EMPTY && s.phase == Between && |s.threads| > 0
    && (forall i :: 0 <= i < |s.threads| ==> s.threads[i] == Outside)
    && s.added == [] && s.merged == [] && s.finished == []
  }

  // ----- the invariant -----

  /** A batch is never empty, and its verdict so far is right unless the round has failed already. */
  predicate ThreadOk(t: Thread, fAllOk: bool) {
    t.Working? ==>
      && 1 <= |t.batch| && t.next <= |t.batch|
      && (t.fOk ==> AllHold(t.batch[..t.next]))
      && (!t.fOk ==> !AllHold(t.batch[..t.next]) || !fAllOk)
  }

  /** Counters agree with the threads. */
  ghost predicate Counted(s: State) {
    && |s.threads| > 0
    && s.sh.nTotal == InLoopCount(s.threads)
    && s.sh.nIdle == WaitingCount(s.threads)
    && s.sh.nTodo == |s.sh.queue| + HeldSize(s.threads)
  }

  /** Every check added is queued, in somebody's batch or merged, as often as it was added. */
  ghost predicate Conserved(s: State, c: Check) {
    multiset(s.added)[c] == multiset(s.merged)[c] + multiset(s.sh.queue)[c] + Held(s.threads, c)
  }

  ghost predicate Inv(s: State) {
    && Counted(s)
    && (forall c :: Conserved(s, c))
    && (forall i :: 0 <= i < |s.threads| ==> ThreadOk(s.threads[i], s.sh.fAllOk))
    && (s.sh.fAllOk <==> AllHold(s.merged))
    && (s.phase == InLoop <==> !s.threads[0].Outside?)
    && (s.threads[0] == Waiting(false) ==> s.sh.queue == [] && s.sh.nTodo > 0)
    && (s.threads[0].Waiting? ==> s.sh.queue == [])
    && (s.phase == Between ==> s.added == [] && s.merged == [] && s.sh.queue == [] && s.sh.nTodo == 0)
    && (forall i :: 0 <= i < |s.finished| ==> (s.finished[i].result <==> AllHold(s.finished[i].added)))
  }

  lemma {:induction false} InitTally(ts: seq<Thread>)
    requires forall i :: 0 <= i < |ts| ==> ts[i] == Outside
    ensures HeldSize(ts) == 0 && InLoopCount(ts) == 0 && WaitingCount(ts) == 0
    ensures forall c :: Held(ts, c) == 0
  {
    if ts != [] {
      InitTally(ts[..|ts| - 1]);
    }
  }

  lemma InitInv(s: State)
    requires Init(s)
    ensures Inv(s)
  {
    InitTally(s.threads);
  }

  // ----- every step keeps it -----

  /** Thread i holds the lock inside Loop: it is counted in nTotal but shown as Outside. */
  ghost predicate Locked(s: State, i: nat) {
    && i < |s.threads| && s.threads[i] == Outside
    && s.sh.nTotal == InLoopCount(s.threads) + 1
    && s.sh.nIdle == WaitingCount(s.threads)
    && s.sh.nTodo == |s.sh.queue| + HeldSize(s.threads)
    && (forall c :: Conserved(s, c))
    && (forall k :: 0 <= k < |s.threads| ==> ThreadOk(s.threads[k], s.sh.fAllOk))
    && (s.sh.fAllOk <==> AllHold(s.merged))
    && (s.phase == InLoop <==> i == 0 || !s.threads[0].Outside?)
    && (s.threads[0] == Waiting(false) ==> s.sh.queue == [] && s.sh.nTodo > 0)
    && (s.threads[0].Waiting? ==> s.sh.queue == [])
    && (s.phase == Between ==> s.added == [] && s.merged == [] && s.sh.queue == [] && s.sh.nTodo == 0)
    && (forall k :: 0 <= k < |s.finished| ==> (s.finished[k].result <==> AllHold(s.finished[k].added)))
  }

  lemma EnterLocks(s: State, i: nat)
    requires Inv(s) && CanEnter(s, i)
    ensures Locked(AfterEnter(s, i), i)
  {
    forall c ensures Conserved(AfterEnter(s, i), c) {
      assert Conserved(s, c);
    }
  }

  lemma WakeLocks(s: State, i: nat)
    requires Inv(s) && CanWake(s, i)
    ensures Locked(AfterWake(s, i), i)
  {
    TallyUpdate(s.threads, i, Outside);
    forall c ensures Conserved(AfterWake(s, i), c) {
      assert Conserved(s, c);
      HeldUpdate(s.threads, i, Outside, c);
    }
  }

  lemma MergeVerdict(s: State, i: nat)
    requires Inv(s) && CanMerge(s, i)
    ensures AfterMerge(s, i).sh.fAllOk <==> AllHold(AfterMerge(s, i).merged)
  {
    var t := s.threads[i];
    assert ThreadOk(t, s.sh.fAllOk);
    assert t.batch[..t.next] == t.batch;
    AllHoldConcat(s.merged, t.batch);
  }

  lemma AllHoldConcat(a: seq<Check>, b: seq<Check>)
    ensures AllHold(a + b) <==> AllHold(a) && AllHold(b)
  {
    if AllHold(a + b) {
      assert forall k :: 0 <= k < |a| ==> (a + b)[k] == a[k];
      assert forall k :: 0 <= k < |b| ==> (a + b)[|a| + k] == b[k];
    }
  }

  lemma MergeConserves(s: State, i: nat, c: Check)
    requires CanMerge(s, i) && Conserved(s, c)
    ensures Conserved(AfterMerge(s, i), c)
  {
    var ts := s.threads[i := Outside];
    HeldUpdate(s.threads, i, Outside, c);
    HeldUpdate(ts, 0, Notified(ts[0]), c);
  }

  lemma MergeLocks(s: State, i: nat)
    requires Inv(s) && CanMerge(s, i)
    ensures Locked(AfterMerge(s, i), i)
  {
    var ts := s.threads[i := Outside];
    TallyUpdate(s.threads, i, Outside);
    TallyUpdate(ts, 0, Notified(ts[0]));
    MergeVerdict(s, i);
    forall c ensures Conserved(AfterMerge(s, i), c) {
      assert Conserved(s, c);
      MergeConserves(s, i, c);
    }
    forall k | 0 <= k < |ts| ensures ThreadOk(AfterMerge(s, i).threads[k], AfterMerge(s, i).sh.fAllOk) {
      assert ThreadOk(s.threads[k], s.sh.fAllOk);
    }
  }

  /** When nothing is left, what was merged is what was added. */
  lemma NothingLeft(s: State, i: nat)
    requires Locked(s, i) && s.sh.queue == [] && s.sh.nTodo == 0
    ensures AllHold(s.added) <==> AllHold(s.merged)
    ensures forall k :: 0 <= k < |s.threads| ==> !s.threads[k].Working?
    ensures forall c :: Held(s.threads, c) == 0
  {
    assert forall k :: 0 <= k < |s.threads| && s.threads[k].Working? ==> ThreadOk(s.threads[k], s.sh.fAllOk);
    forall c ensures multiset(s.added)[c] == multiset(s.merged)[c] && Held(s.threads, c) == 0 {
      HeldByNobody(s.threads, c);
      assert Conserved(s, c);
    }
    HeldByNobody(s.threads, Check(0, true));
    assert multiset(s.added) == multiset(s.merged);
    assert AllHold(s.added) <==> forall c :: c in multiset(s.added) ==> c.holds;
    assert AllHold(s.merged) <==> forall c :: c in multiset(s.merged) ==> c.holds;
  }

  lemma LeaveInv(s: State, nBatchSize: nat)
    requires Locked(s, 0) && Leaves(s.sh, true)
    ensures Inv(Proceed(s, 0, nBatchSize))
  {
    NothingLeft(s, 0);
    assert s.threads[0 := Outside] == s.threads;
    var r := Proceed(s, 0, nBatchSize);
    forall c ensures Conserved(r, c) {
    }
  }

  lemma BlockInv(s: State, i: nat, nBatchSize: nat)
    requires Locked(s, i) && s.sh.queue == [] && !Leaves(s.sh, i == 0)
    ensures Inv(Proceed(s, i, nBatchSize))
  {
    TallyUpdate(s.threads, i, Waiting(false));
    var r := Proceed(s, i, nBatchSize);
    forall c ensures Conserved(r, c) {
      assert Conserved(s, c);
      HeldUpdate(s.threads, i, Waiting(false), c);
    }
  }

  lemma TakeConserves(s: State, i: nat, nBatchSize: nat, c: Check)
    requires i < |s.threads| && s.threads[i] == Outside && s.sh.queue != [] && Conserved(s, c)
    ensures Conserved(Proceed(s, i, nBatchSize), c)
  {
    var n := BatchSize(s.sh, nBatchSize);
    var batch := Batch(s.sh.queue, n);
    BatchContents(s.sh.queue, n);
    assert multiset(s.sh.queue)[c] == multiset(batch)[c] + multiset(s.sh.queue[..|s.sh.queue| - n])[c];
    HeldUpdate(s.threads, i, Working(batch, 0, s.sh.fAllOk), c);
  }

  lemma TakeInv(s: State, i: nat, nBatchSize: nat)
    requires Locked(s, i) && s.sh.queue != []
    ensures Inv(Proceed(s, i, nBatchSize))
  {
    var n := BatchSize(s.sh, nBatchSize);
    var t := Working(Batch(s.sh.queue, n), 0, s.sh.fAllOk);
    TallyUpdate(s.threads, i, t);
    forall c ensures Conserved(Proceed(s, i, nBatchSize), c) {
      assert Conserved(s, c);
      TakeConserves(s, i, nBatchSize, c);
    }
    assert ThreadOk(t, s.sh.fAllOk);
  }

  lemma ProceedInv(s: State, i: nat, nBatchSize: nat)
    requires Locked(s, i)
    ensures Inv(Proceed(s, i, nBatchSize))
  {
    if s.sh.queue != [] {
      TakeInv(s, i, nBatchSize);
    } else if Leaves(s.sh, i == 0) {
      LeaveInv(s, nBatchSize);
    } else {
      BlockInv(s, i, nBatchSize);
    }
  }

  lemma RunThreadOk(t: Thread, fAllOk: bool)
    requires t.Working? && ThreadOk(t, fAllOk) && t.next < |t.batch|
    ensures ThreadOk(Working(t.batch, t.next + 1, t.fOk && t.batch[t.next].holds), fAllOk)
  {
    assert t.batch[..t.next + 1] == t.batch[..t.next] + [t.batch[t.next]];
    AllHoldConcat(t.batch[..t.next], [t.batch[t.next]]);
  }

  lemma RunInv(s: State, i: nat)
    requires Inv(s) && CanRun(s, i)
    ensures Inv(AfterRun(s, i))
  {
    var u := AfterRun(s, i).threads[i];
    TallyUpdate(s.threads, i, u);
    forall c ensures Conserved(AfterRun(s, i), c) {
      assert Conserved(s, c);
      HeldUpdate(s.threads, i, u, c);
    }
    assert ThreadOk(s.threads[i], s.sh.fAllOk);
    RunThreadOk(s.threads[i], s.sh.fAllOk);
  }

  lemma AddInv(s: State, s': State, checks: seq<Check>, w: nat, nBatchSize: nat)
    requires Inv(s) && NextStep(s, s', Add(checks, w), nBatchSize)
    ensures Inv(s')
  {
    assert OnlyNotified(s.threads, s'.threads);
    OnlyNotifiedTally(s.threads, s'.threads);
    forall c ensures Conserved(s', c) {
      assert Conserved(s, c);
    }
    forall k | 0 <= k < |s'.threads| ensures ThreadOk(s'.threads[k], s'.sh.fAllOk) {
      assert ThreadOk(s.threads[k], s.sh.fAllOk);
    }
  }

  lemma NextInv(s: State, s': State, step: Step, nBatchSize: nat)
    requires Inv(s) && NextStep(s, s', step, nBatchSize)
    ensures Inv(s')
  {
    match step
    case BeginRound =>
      forall c ensures Conserved(s', c) {
        assert Conserved(s, c);
      }
    case Add(checks, w) =>
      AddInv(s, s', checks, w, nBatchSize);
    case Enter(i) =>
      EnterLocks(s, i);
      ProceedInv(AfterEnter(s, i), i, nBatchSize);
    case Run(i) =>
      RunInv(s, i);
    case Merge(i) =>
      MergeLocks(s, i);
      ProceedInv(AfterMerge(s, i), i, nBatchSize);
    case Wake(i) =>
      WakeLocks(s, i);
      ProceedInv(AfterWake(s, i), i, nBatchSize);
  }

  // ----- whole runs -----

  /** A run: states linked by steps. */
  ghost predicate IsRun(states: seq<State>, steps: seq<Step>, nBatchSize: nat) {
    && |states| == |steps| + 1
    && Init(states[0])
    && (forall k :: 0 <= k < |states| ==> |states[k].threads| > 0)
    && (forall k :: 0 <= k < |steps| ==> NextStep(states[k], states[k + 1], steps[k], nBatchSize))
  }

  /**
   In every run the invariant holds; in particular every finished call of Wait has
   returned true exactly when all the checks added in its round hold.
   */
  lemma {:induction false} RunIsSafe(states: seq<State>, steps: seq<Step>, nBatchSize: nat, k: nat)
    requires IsRun(states, steps, nBatchSize) && k < |states|
    ensures Inv(states[k])
    ensures forall r :: r in states[k].finished ==> (r.result <==> AllHold(r.added))
  {
    if k == 0 {
      InitInv(states[0]);
    } else {
      var j := k - 1;
      RunIsSafe(states, steps, nBatchSize, j);
      assert NextStep(states[j], states[j + 1], steps[j], nBatchSize);
      NextInv(states[j], states[k], steps[j], nBatchSize);
    }
  }

  /** The assertions of CCheckQueueControl: between rounds the queue is unused. */
  lemma ControlAssertions(s: State)
    requires Inv(s) && s.phase == Between
    ensures s.sh.nTotal == s.sh.nIdle && s.sh.nTodo == 0 && s.sh.fAllOk && s.sh.queue == []
  {
    IdleWhenNothingToDo(s);
  }

  /** Whenever nothing is left to do and the lock is free, every thread inside Loop is waiting. */
  lemma IdleWhenNothingToDo(s: State)
    requires Inv(s) && s.sh.nTodo == 0
    ensures s.sh.nTotal == s.sh.nIdle
  {
    assert forall k :: 0 <= k < |s.threads| && s.threads[k].Working? ==> ThreadOk(s.threads[k], s.sh.fAllOk);
    HeldByNobody(s.threads, Check(0, true));
    TallyBounds(s.threads);
  }

  // ----- the master is never stuck -----

  /** A step that does not rely on a spurious wake-up. */
  predicate Productive(s: State, step: Step) {
    step.Enter? || step.Run? || step.Merge? ||
    (step.Wake? && step.i < |s.threads| && s.threads[step.i] == Waiting(true))
  }

  lemma {:induction false} SomebodyWorks(ts: seq<Thread>) returns (i: nat)
    requires HeldSize(ts) > 0
    ensures i < |ts| && ts[i].Working?
  {
    var k := |ts| - 1;
    if ts[k].Working? {
      i := k;
    } else {
      i := SomebodyWorks(ts[..k]);
    }
  }

  /** While the master is inside Loop, somebody can always make a productive step. */
  lemma Progress(s: State, nBatchSize: nat) returns (step: Step, s': State)
    requires Inv(s) && s.phase == InLoop
    ensures NextStep(s, s', step, nBatchSize) && Productive(s, step)
  {
    var i := 0;
    if s.threads[0] == Waiting(true) {
      step := Wake(0);
      s' := Proceed(AfterWake(s, 0), 0, nBatchSize);
    } else {
      if s.threads[0] == Waiting(false) {
        i := SomebodyWorks(s.threads);
      }
      assert ThreadOk(s.threads[i], s.sh.fAllOk);
      if CanRun(s, i) {
        step, s' := Run(i), AfterRun(s, i);
      } else {
        step := Merge(i);
        s' := Proceed(AfterMerge(s, i), i, nBatchSize);
      }
    }
  }

  /**
   A bound on the productive steps left: units to do (each may cost a merge and a
   wake-up), queued units, checks to execute, threads to arrive, pending wake-ups.
   */
  function Rank(s: State): int {
    2 * s.sh.nTodo + |s.sh.queue| + ToRunCount(s.threads) + (|s.threads| - InLoopCount(s.threads)) +
    NotifiedCount(s.threads)
  }

  lemma {:induction false} ToRunNonNegative(ts: seq<Thread>)
    requires forall i :: 0 <= i < |ts| && ts[i].Working? ==> ts[i].next <= |ts[i].batch|
    ensures ToRunCount(ts) >= 0
  {
    if ts != [] {
      ToRunNonNegative(ts[..|ts| - 1]);
    }
  }

  lemma {:induction false} InLoopBound(ts: seq<Thread>)
    ensures InLoopCount(ts) <= |ts|
  {
    if ts != [] {
      InLoopBound(ts[..|ts| - 1]);
    }
  }

  lemma RankNonNegative(s: State)
    requires Inv(s)
    ensures Rank(s) >= 0
  {
    assert forall i :: 0 <= i < |s.threads| ==> ThreadOk(s.threads[i], s.sh.fAllOk);
    ToRunNonNegative(s.threads);
    InLoopBound(s.threads);
  }

  /** The rest of a critical section lowers the rank, unless the master leaves. */
  lemma ProceedRank(s: State, i: nat, nBatchSize: nat)
    requires i < |s.threads| && s.threads[i] == Outside && !Leaves(s.sh, i == 0)
    ensures Rank(Proceed(s, i, nBatchSize)) < Rank(s)
  {
    if s.sh.queue == [] {
      TallyUpdate(s.threads, i, Waiting(false));
    } else {
      var n := BatchSize(s.sh, nBatchSize);
      TallyUpdate(s.threads, i, Working(Batch(s.sh.queue, n), 0, s.sh.fAllOk));
    }
  }

  lemma MergeRank(s: State, i: nat)
    requires Inv(s) && CanMerge(s, i)
    ensures Rank(AfterMerge(s, i)) <= Rank(s)
  {
    var ts := s.threads[i := Outside];
    TallyUpdate(s.threads, i, Outside);
    TallyUpdate(ts, 0, Notified(ts[0]));
    assert ThreadOk(s.threads[i], s.sh.fAllOk);
  }

  /**
   Every productive step while the master is inside Loop either lets the master
   return or lowers the rank, which is never negative.
   */
  lemma StepDecreases(s: State, s': State, step: Step, nBatchSize: nat)
    requires Inv(s) && s.phase == InLoop && NextStep(s, s', step, nBatchSize) && Productive(s, step)
    ensures s'.phase == Between || (s'.phase == InLoop && 0 <= Rank(s') < Rank(s))
  {
    NextInv(s, s', step, nBatchSize);
    RankNonNegative(s');
    match step
    case BeginRound =>
    case Add(_, _) =>
    case Enter(i) =>
      EnterLocks(s, i);
      ProceedRank(AfterEnter(s, i), i, nBatchSize);
    case Run(i) =>
      TallyUpdate(s.threads, i, AfterRun(s, i).threads[i]);
    case Merge(i) =>
      MergeLocks(s, i);
      MergeRank(s, i);
      if !Leaves(AfterMerge(s, i).sh, i == 0) {
        ProceedRank(AfterMerge(s, i), i, nBatchSize);
      }
    case Wake(i) =>
      WakeLocks(s, i);
      TallyUpdate(s.threads, i, Outside);
      if !Leaves(AfterWake(s, i).sh, i == 0) {
        ProceedRank(AfterWake(s, i), i, nBatchSize);
      }
  }

  /** Steps without spurious wake-ups, from a state inside Loop on. */
  ghost predicate ProductiveRun(states: seq<State>, steps: seq<Step>, nBatchSize: nat) {
    && |states| == |steps| + 1
    && (forall k :: 0 <= k < |states| ==> |states[k].threads| > 0)
    && (forall k :: 0 <= k < |steps| ==>
          states[k].phase == InLoop && NextStep(states[k], states[k + 1], steps[k], nBatchSize)
          && Productive(states[k], steps[k]))
  }

  /** However the scheduler chooses, no more productive steps than the rank happen before the master returns. */
  lemma {:induction false} WaitIsBounded(states: seq<State>, steps: seq<Step>, nBatchSize: nat, k: nat)
    requires ProductiveRun(states, steps, nBatchSize) && k < |states|
    requires Inv(states[0]) && states[0].phase == InLoop
    ensures Inv(states[k]) && k <= Rank(states[0]) + 1
    ensures states[k].phase == InLoop ==> 0 <= Rank(states[k]) <= Rank(states[0]) - k
  {
    if k == 0 {
      RankNonNegative(states[0]);
    } else {
      var j := k - 1;
      WaitIsBounded(states, steps, nBatchSize, j);
      assert NextStep(states[j], states[j + 1], steps[j], nBatchSize);
      NextInv(states[j], states[k], steps[j], nBatchSize);
      StepDecreases(states[j], states[k], steps[j], nBatchSize);
    }
  }

  /** A step inside Loop leaves the round as it is, or finishes it with the verdict on what was added. */
  lemma StepKeepsRound(s: State, s': State, step: Step, nBatchSize: nat)
    requires Inv(s) && s.phase == InLoop && NextStep(s, s', step, nBatchSize) && Productive(s, step)
    ensures s'.phase == InLoop ==> s'.added == s.added && s'.finished == s.finished
    ensures s'.phase == Between ==> s'.finished == s.finished + [Round(s.added, AllHold(s.added))]
  {
    NextInv(s, s', step, nBatchSize);
    if s'.phase == Between {
      assert |s'.finished| == |s.finished| + 1 && s'.finished[|s.finished|].added == s.added;
      assert s'.finished[|s.finished|].result <==> AllHold(s.added);
    }
  }

  /** From every state inside Loop productive steps lead to the return of Wait, with the verdict of the round. */
  lemma {:induction false} WaitReturns(s: State, nBatchSize: nat) returns (states: seq<State>, steps: seq<Step>)
    requires Inv(s) && s.phase == InLoop
    ensures ProductiveRun(states, steps, nBatchSize) && states[0] == s
    ensures var end := states[|states| - 1];
            end.phase == Between && end.finished == s.finished + [Round(s.added, AllHold(s.added))]
    decreases Rank(s)
  {
    RankNonNegative(s);
    var step, s' := Progress(s, nBatchSize);
    NextInv(s, s', step, nBatchSize);
    StepDecreases(s, s', step, nBatchSize);
    StepKeepsRound(s, s', step, nBatchSize);
    if s'.phase == Between {
      states, steps := [s, s'], [step];
    } else {
      var more, rest := WaitReturns(s', nBatchSize);
      states, steps := [s] + more, [step] + rest;
      PrependStep(s, step, more, rest, nBatchSize);
    }
  }

  lemma PrependStep(s: State, step: Step, states: seq<State>, steps: seq<Step>, nBatchSize: nat)
    requires ProductiveRun(states, steps, nBatchSize) && |s.threads| > 0 && s.phase == InLoop
    requires NextStep(s, states[0], step, nBatchSize) && Productive(s, step)
    ensures ProductiveRun([s] + states, [step] + steps, nBatchSize)
  {
    var all, more := [s] + states, [step] + steps;
    forall k | 0 <= k < |more|
      ensures all[k].phase == InLoop && NextStep(all[k], all[k + 1], more[k], nBatchSize) && Productive(all[k], more[k])
    {
      if k > 0 {
        assert all[k] == states[k - 1] && all[k + 1] == states[k] && more[k] == steps[k - 1];
      }
    }
  }

  // ----- a whole round -----

  /** The states of a round in which the master alone adds one check and runs it. */
  function LoneStates(c: Check): seq<State> {
    [State(EMPTY, [Outside], Between, [], [], []),
     State(EMPTY, [Outside], Adding, [], [], []),
     State(Shared([c], 0, 0, true, 1), [Outside], Adding, [c], [], []),
     State(Shared([], 0, 1, true, 1), [Working([c], 0, true)], InLoop, [c], [], []),
     State(Shared([], 0, 1, true, 1), [Working([c], 1, c.holds)], InLoop, [c], [], []),
     State(EMPTY, [Outside], Between, [], [], [Round([c], c.holds)])]
  }

  lemma LoneEnter(c: Check, nBatchSize: nat)
    ensures NextStep(LoneStates(c)[2], LoneStates(c)[3], Enter(0), nBatchSize)
  {
    var s := AfterEnter(LoneStates(c)[2], 0);
    assert s.sh.queue == [c] && BatchSize(s.sh, nBatchSize) == 1;
    assert Batch([c], 1) == [c] by {
      assert [c][..0] == [];
    }
    assert [c][..0] == [];
  }

  lemma LoneMerge(c: Check, nBatchSize: nat)
    ensures NextStep(LoneStates(c)[4], LoneStates(c)[5], Merge(0), nBatchSize)
  {
    var s := AfterMerge(LoneStates(c)[4], 0);
    assert s.sh == Shared([], 0, 1, c.holds, 0) && s.threads == [Outside];
  }

  function LoneSteps(c: Check): seq<Step> {
    [BeginRound, Add([c], 0), Enter(0), Run(0), Merge(0)]
  }

  lemma LoneStep(c: Check, nBatchSize: nat, k: nat)
    requires k < 5
    ensures NextStep(LoneStates(c)[k], LoneStates(c)[k + 1], LoneSteps(c)[k], nBatchSize)
  {
    if k == 2 {
      LoneEnter(c, nBatchSize);
    } else if k == 4 {
      LoneMerge(c, nBatchSize);
    }
  }

  /** It is a run, and it ends with the verdict of the check. */
  lemma OneRound(c: Check, nBatchSize: nat)
    ensures IsRun(LoneStates(c), LoneSteps(c), nBatchSize)
  {
    forall k | 0 <= k < |LoneSteps(c)|
      ensures NextStep(LoneStates(c)[k], LoneStates(c)[k + 1], LoneSteps(c)[k], nBatchSize)
    {
      LoneStep(c, nBatchSize, k);
    }
  }
}
