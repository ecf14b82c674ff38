/**
 The parallel check queue (checkqueue.h): one master and any number of worker
 threads.  The shared fields change only inside critical sections, which are
 methods of class Queue; their effect is given by functions on the value Shared.
 Module CheckQueueRuns interleaves them with waiting, waking and executing.
 */
module CheckQueue {
  /** A verification and the verdict its operator() returns. */
  datatype Check = Check(id: nat, holds: bool)

  predicate AllHold(s: seq<Check>) {
    forall i :: 0 <= i < |s| ==> s[i].holds
  }

  /** The fields protected by the mutex. */
  datatype Shared = Shared(queue: seq<Check>, nIdle: int, nTotal: int, fAllOk: bool, nTodo: int)

  const EMPTY: Shared := Shared([], 0, 0, true, 0)

  function Added(s: Shared, checks: seq<Check>): Shared {
    s.(queue := s.queue + checks, nTodo := s.nTodo + |checks|)
  }

  function Entered(s: Shared): Shared {
    s.(nTotal := s.nTotal + 1)
  }

  function Merged(s: Shared, nNow: nat, fOk: bool): Shared {
    s.(fAllOk := s.fAllOk && fOk, nTodo := s.nTodo - nNow)
  }

  /** The master, and nobody else, leaves when nothing is left; fQuit is never set. */
  predicate Leaves(s: Shared, fMaster: bool) {
    s.queue == [] && fMaster && s.nTodo == 0
  }

  function Left(s: Shared): Shared {
    s.(nTotal := s.nTotal - 1, fAllOk := true)
  }

  function Blocked(s: Shared): Shared {
    s.(nIdle := s.nIdle + 1)
  }

  function Woken(s: Shared): Shared {
    s.(nIdle := s.nIdle - 1)
  }

  /** How many units to take: never none, never more than there are. */
  function BatchSize(s: Shared, nBatchSize: nat): (n: nat)
    requires s.queue != []
    ensures 1 <= n <= |s.queue|
    ensures n <= nBatchSize || n == 1
  {
    var parts := s.nTotal + s.nIdle + 1;
    var share := if parts >= 1 then Share(|s.queue|, parts) else 0;
    var n := if nBatchSize < share then nBatchSize else share;
    if n < 1 then 1 else n
  }

  function Share(size: nat, parts: nat): (n: nat)
    requires parts >= 1
    ensures n <= size
  {
    assert size == size / parts * parts + size % parts;
    size / parts
  }

  /** The batch is popped from the back, one by one. */
  function Batch(queue: seq<Check>, n: nat): (b: seq<Check>)
    requires n <= |queue|
    ensures |b| == n
  {
    if n == 0 then [] else [queue[|queue| - 1]] + Batch(queue[..|queue| - 1], n - 1)
  }

  lemma {:induction false} BatchContents(queue: seq<Check>, n: nat)
    requires n <= |queue|
    ensures multiset(Batch(queue, n)) + multiset(queue[..|queue| - n]) == multiset(queue)
    decreases n
  {
    if n == 0 {
      assert queue[..|queue|] == queue;
    } else {
      var front, last, rest := queue[..|queue| - 1], queue[|queue| - 1], queue[..|queue| - n];
      BatchContents(front, n - 1);
      assert front[..|front| - (n - 1)] == rest;
      assert queue == front + [last];
      calc {
        multiset(Batch(queue, n)) + multiset(rest);
        multiset([last] + Batch(front, n - 1)) + multiset(rest);
        multiset{last} + (multiset(Batch(front, n - 1)) + multiset(rest));
        multiset{last} + multiset(front);
        multiset(queue);
      }
    }
  }

  function Taken(s: Shared, n: nat): Shared
    requires n <= |s.queue|
  {
    s.(queue := s.queue[..|s.queue| - n])
  }

  class Queue {
    var queue: seq<Check>
    var nIdle: int
    var nTotal: int
    var fAllOk: bool
    var nTodo: int
    const nBatchSize: nat

    function State(): Shared
      reads this
    {
      Shared(queue, nIdle, nTotal, fAllOk, nTodo)
    }

    constructor (nBatchSizeIn: nat)
      ensures State() == EMPTY && nBatchSize == nBatchSizeIn
    {
      queue, nIdle, nTotal, fAllOk, nTodo := [], 0, 0, true, 0;
      nBatchSize := nBatchSizeIn;
    }

    /** Add; who is notified: nobody, one worker or all of them. */
    method Add(vChecks: seq<Check>) returns (one: bool, all: bool)
      modifies this
      ensures State() == Added(old(State()), vChecks)
      ensures one <==> |vChecks| == 1
      ensures all <==> |vChecks| > 1
    {
      for i := 0 to |vChecks|
        invariant State() == old(State()).(queue := old(queue) + vChecks[..i])
      {
        assert vChecks[..i + 1] == vChecks[..i] + [vChecks[i]];
        queue := queue + [vChecks[i]];
      }
      assert vChecks[..|vChecks|] == vChecks;
      nTodo := nTodo + |vChecks|;
      one, all := |vChecks| == 1, |vChecks| > 1;
    }

    /** The start of the critical section of Loop; the master is notified when a worker finishes the last unit. */
    method Begin(nNow: nat, fOk: bool, fMaster: bool) returns (notifyMaster: bool)
      modifies this
      ensures State() == if nNow > 0 then Merged(old(State()), nNow, fOk) else Entered(old(State()))
      ensures notifyMaster <==> nNow > 0 && nTodo == 0 && !fMaster
    {
      notifyMaster := false;
      if nNow > 0 {
        fAllOk := fAllOk && fOk;
        nTodo := nTodo - nNow;
        if nTodo == 0 && !fMaster {
          notifyMaster := true;
        }
      } else {
        nTotal := nTotal + 1;
      }
    }

    /** Leave with the result, or block, when the queue is empty. */
    method LeaveOrBlock(fMaster: bool) returns (left: bool, fRet: bool)
      requires queue == []
      modifies this
      ensures left <==> Leaves(old(State()), fMaster)
      ensures fRet == old(fAllOk)
      ensures State() == if left then Left(old(State())) else Blocked(old(State()))
    {
      fRet := fAllOk;
      if fMaster && nTodo == 0 {
        nTotal := nTotal - 1;
        fAllOk := true;
        return true, fRet;
      }
      nIdle := nIdle + 1;
      left := false;
    }

    /** Take a batch; no pop ever finds the queue empty. */
    method TakeBatch() returns (vChecks: seq<Check>, fOk: bool)
      requires queue != []
      modifies this`queue
      ensures var n := BatchSize(old(State()), nBatchSize);
              vChecks == Batch(old(queue), n) && State() == Taken(old(State()), n)
      ensures fOk == fAllOk
    {
      var nNow := BatchSize(State(), nBatchSize);
      ghost var was := queue;
      vChecks := [];
      for i := 0 to nNow
        invariant i <= |was| && queue == was[..|was| - i]
        invariant vChecks + Batch(queue, nNow - i) == Batch(was, nNow)
      {
        assert queue != [];
        vChecks := vChecks + [queue[|queue| - 1]];
        queue := queue[..|queue| - 1];
      }
      fOk := fAllOk;
    }
  }

  /** Executing a batch outside the lock: once something fails, the rest is skipped. */
  method Execute(vChecks: seq<Check>, start: bool) returns (fOk: bool)
    ensures fOk <==> start && AllHold(vChecks)
  {
    fOk := start;
    for i := 0 to |vChecks|
      invariant fOk <==> start && AllHold(vChecks[..i])
    {
      if fOk {
        fOk := vChecks[i].holds;
      }
    }
    assert vChecks[..|vChecks|] == vChecks;
  }
}
