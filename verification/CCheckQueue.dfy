/** The critical sections of src/checkqueue.h as methods on the fields the mutex protects. */
module CCheckQueueObject {
  import opened CheckQueue

  class CCheckQueue {
    var queue: seq<Check>
    var idle: int
    var total: int
    var allOk: bool
    var todo: int
    const limit: nat

    ghost function Model(): Shared
      reads this
    {
      Shared(queue, idle, total, allOk, todo)
    }

    constructor (batchSize: nat)
      ensures Model() == Shared([], 0, 0, true, 0) && limit == batchSize
    {
      queue, idle, total, allOk, todo, limit := [], 0, 0, true, 0, batchSize;
    }

    /** Lock taken after a batch of the given size: clean up, then the wait loop. */
    method AfterBatch(done: nat, ok: bool, master: bool) returns (outcome: Outcome, notifyMaster: bool)
      modifies this
      ensures (Model(), outcome) == CheckQueue.Seek(Settle(old(Model()), done, ok), master, limit)
      ensures notifyMaster <==> old(todo) - done == 0 && !master
    {
      allOk := allOk && ok;
      todo := todo - done;
      notifyMaster := todo == 0 && !master;
      outcome := WaitLoop(master);
    }

    /** First lock of a thread. */
    method FirstEntry(master: bool) returns (outcome: Outcome)
      modifies this
      ensures (Model(), outcome) == CheckQueue.Seek(old(Model()).(total := old(total) + 1), master, limit)
    {
      total := total + 1;
      outcome := WaitLoop(master);
    }

    /** Lock taken again after waiting. */
    method AfterWait(master: bool) returns (outcome: Outcome)
      modifies this
      ensures (Model(), outcome) == CheckQueue.Seek(old(Model()).(idle := old(idle) - 1), master, limit)
    {
      idle := idle - 1;
      outcome := WaitLoop(master);
    }

    /** The loop around the condition variable up to the point where the lock is released. */
    method WaitLoop(master: bool) returns (outcome: Outcome)
      modifies this
      ensures (Model(), outcome) == CheckQueue.Seek(old(Model()), master, limit)
    {
      if queue == [] {
        if master && todo == 0 {
          total := total - 1;
          var ret := allOk;
          allOk := true;
          return Returns(ret);
        }
        idle := idle + 1;
        return Waits;
      }
      var now := BatchSize(|queue|, total + idle + 1, limit);
      var checks := TakeLast(now);
      return Takes(checks, allOk);
    }

    /** Moves the last n jobs to a local batch. */
    method TakeLast(n: nat) returns (batch: seq<Check>)
      requires n <= |queue|
      modifies `queue
      ensures queue == old(queue)[..|old(queue)| - n] && batch == Popped(old(queue), n)
    {
      var checks := new Check[n];
      var i := 0;
      while i < n
        invariant 0 <= i <= n
        invariant queue == old(queue)[..|old(queue)| - i]
        invariant forall k :: 0 <= k < i ==> checks[k] == old(queue)[|old(queue)| - 1 - k]
      {
        checks[i] := queue[|queue| - 1];
        queue := queue[..|queue| - 1];
        i := i + 1;
      }
      batch := checks[..];
    }

    /** Runs a batch outside the lock; run lists the jobs really executed. */
    method Execute(pass: Check -> bool, batch: seq<Check>, start: bool) returns (ok: bool, ghost run: seq<Check>)
      ensures ok == BatchOk(pass, batch, start) && run == Executed(pass, batch, start)
    {
      ok, run := start, [];
      var i := 0;
      assert batch[0..] == batch;
      while i < |batch|
        invariant 0 <= i <= |batch|
        invariant BatchOk(pass, batch[i..], ok) == BatchOk(pass, batch, start)
        invariant run + Executed(pass, batch[i..], ok) == Executed(pass, batch, start)
      {
        assert batch[i..][1..] == batch[i + 1..];
        if ok {
          run := run + [batch[i]];
          ok := pass(batch[i]);
        } else {
          assert Executed(pass, batch[i..], ok) == Executed(pass, batch[i + 1..], ok) == [];
          assert BatchOk(pass, batch[i..], ok) == BatchOk(pass, batch[i + 1..], ok);
        }
        i := i + 1;
      }
    }

    /** Add; the result tells whether no worker, one, or all of them are notified. */
    method Add(checks: seq<Check>) returns (notify: nat)
      modifies `queue, `todo
      ensures queue == old(queue) + checks && todo == old(todo) + |checks|
      ensures notify == if |checks| > 2 then 2 else |checks|
    {
      var i := 0;
      while i < |checks|
        invariant 0 <= i <= |checks|
        invariant queue == old(queue) + checks[..i] && todo == old(todo)
      {
        assert checks[..i + 1] == checks[..i] + [checks[i]];
        queue := queue + [checks[i]];
        i := i + 1;
      }
      assert checks[..i] == checks;
      todo := todo + |checks|;
      notify := if |checks| == 1 then 1 else if |checks| > 1 then 2 else 0;
    }

    method IsIdle() returns (idleNow: bool)
      ensures idleNow <==> Idle(Model())
    {
      return total == idle && todo == 0 && allOk;
    }
  }
}
