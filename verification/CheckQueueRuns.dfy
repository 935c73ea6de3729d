/** Every reachable state of the check queue: exact counters, no lost wake-up, a true verdict, and an end to waiting. */
module CheckQueueRuns {
  import opened CheckQueue

  // ---------- The invariant ----------

  /** nTodo counts the queued jobs and those in batches; nTotal and nIdle count threads. */
  predicate CountsOk(s: Queue) {
    && s.q.total == Total(s.threads, Active)
    && s.q.idle == Total(s.threads, Waiting)
    && s.q.todo == |s.q.queue| + Total(s.threads, Size)
  }

  predicate BatchesOk(s: Queue) {
    forall i :: 0 <= i < |s.threads| && s.threads[i].Running? ==>
      0 < |s.threads[i].batch| && (!s.threads[i].ok ==> !s.q.allOk)
  }

  /** A blocked master has nothing to take, and if it was not notified there is work outstanding. */
  predicate MasterOk(s: Queue) {
    && 0 < |s.threads|
    && (s.threads[0].Blocked? ==> s.q.queue == [])
    && (Sleeping(s.threads[0]) ==> s.q.todo > 0)
  }

  /** No lost wake-up: while jobs are queued some started worker is not asleep. */
  predicate WorkersOk(s: Queue) {
    s.q.queue != [] ==>
      || (forall i :: 0 < i < |s.threads| ==> s.threads[i].Off?)
      || (exists i :: 0 < i < |s.threads| && !s.threads[i].Off? && !Sleeping(s.threads[i]))
  }

  /** Every job added is queued, in a batch, or finished; the running verdict is about the jobs
      really executed. */
  predicate HistoryOk(env: Env, s: Queue) {
    && s.added == multiset(s.q.queue) + Outstanding(s.threads) + s.finished
    && s.executed <= s.finished
    && (s.q.allOk ==> s.executed == s.finished && forall c :: c in s.executed ==> env.pass(c))
    && (!s.q.allOk ==> exists c :: c in s.executed && !env.pass(c))
  }

  ghost predicate Sound(env: Env, s: Queue) {
    CountsOk(s) && BatchesOk(s) && MasterOk(s) && HistoryOk(env, s)
  }

  ghost predicate Inv(env: Env, s: Queue) {
    Sound(env, s) && WorkersOk(s)
  }

  /** Before any thread has started. */
  function Start(threads: nat): Queue
    requires threads > 0
  {
    State(Shared([], 0, 0, true, 0), seq(threads, _ => Off), multiset{}, multiset{}, multiset{})
  }

  lemma {:induction false} AllOff(ts: seq<Thread>)
    requires forall i :: 0 <= i < |ts| ==> ts[i] == Off
    ensures Total(ts, Active) == Total(ts, Waiting) == Total(ts, Size) == Total(ts, Notified) == 0
    ensures Outstanding(ts) == multiset{}
  {
    if ts != [] {
      AllOff(ts[..|ts| - 1]);
    }
  }

  lemma StartInv(env: Env, threads: nat)
    requires threads > 0
    ensures Inv(env, Start(threads))
  {
    AllOff(Start(threads).threads);
  }

  // ---------- One thread leaves the section it was in ----------

  /** s with thread i taken out of the loop, the counters adjusted; Resume lets it in again. */
  function Without(s: Queue, i: nat): Queue
    requires i < |s.threads|
  {
    var t := s.threads[i];
    s.(threads := s.threads[i := Off],
       q := s.q.(total := s.q.total - Active(t), idle := s.q.idle - Waiting(t), todo := s.q.todo - Size(t)))
  }

  lemma UpdateAll(ts: seq<Thread>, i: nat, t: Thread)
    requires i < |ts|
    ensures Total(ts[i := t], Active) == Total(ts, Active) - Active(ts[i]) + Active(t)
    ensures Total(ts[i := t], Waiting) == Total(ts, Waiting) - Waiting(ts[i]) + Waiting(t)
    ensures Total(ts[i := t], Size) == Total(ts, Size) - Size(ts[i]) + Size(t)
    ensures Total(ts[i := t], Notified) == Total(ts, Notified) - Notified(ts[i]) + Notified(t)
    ensures Jobs(ts[i]) <= Outstanding(ts)
    ensures Outstanding(ts[i := t]) == Outstanding(ts) - Jobs(ts[i]) + Jobs(t)
  {
    TotalUpdate(ts, Active, i, t);
    TotalUpdate(ts, Waiting, i, t);
    TotalUpdate(ts, Size, i, t);
    TotalUpdate(ts, Notified, i, t);
    OutstandingUpdate(ts, i, t);
  }

  lemma {:induction false} NoneRunning(s: Queue)
    requires BatchesOk(s) && Total(s.threads, Size) == 0
    ensures forall i :: 0 <= i < |s.threads| ==> !s.threads[i].Running?
    ensures Outstanding(s.threads) == multiset{}
  {
    TotalZero(s.threads, Size);
    OutstandingSize(s.threads);
    forall i | 0 <= i < |s.threads| ensures !s.threads[i].Running? {
      assert s.threads[i] in s.threads;
    }
  }

  lemma PoppedJobs(s: seq<Check>, n: nat)
    requires n <= |s|
    ensures multiset(s) == multiset(s[..|s| - n]) + multiset(Popped(s, n))
    decreases n
  {
    if n == 0 {
      assert s[..|s|] == s && Popped(s, 0) == [];
    } else {
      var m := |s| - 1;
      PoppedJobs(s[..m], n - 1);
      assert s == s[..m] + [s[m]];
      assert s[..m][..m - (n - 1)] == s[..|s| - n];
      assert Popped(s, n) == [s[m]] + Popped(s[..m], n - 1);
    }
  }

  // ---------- A thread enters the wait loop ----------

  /** The state after thread i, counted in, has gone through the wait loop. */
  function Entered(env: Env, s: Queue, i: nat): Queue
    requires i < |s.threads|
  {
    Resume(env, s, s.q.(total := s.q.total + 1), s.threads, i)
  }

  function ReturnedState(s: Queue): Queue {
    s.(q := s.q.(allOk := true), added := multiset{}, finished := multiset{}, executed := multiset{})
  }

  function BlockedState(s: Queue, i: nat): Queue
    requires i < |s.threads|
  {
    s.(q := s.q.(total := s.q.total + 1, idle := s.q.idle + 1), threads := s.threads[i := Blocked(false)])
  }

  function TakenState(s: Queue, i: nat, n: nat): Queue
    requires i < |s.threads| && n <= |s.q.queue|
  {
    s.(q := s.q.(total := s.q.total + 1, queue := s.q.queue[..|s.q.queue| - n]),
       threads := s.threads[i := Running(Popped(s.q.queue, n), s.q.allOk)])
  }

  function Taken(env: Env, s: Queue): (n: nat)
    requires s.q.queue != []
    ensures 1 <= n <= |s.q.queue|
  {
    BatchSize(|s.q.queue|, s.q.total + 1 + s.q.idle + 1, env.limit)
  }

  lemma EnteredShape(env: Env, s: Queue, i: nat)
    requires i < |s.threads| && s.threads[i].Off?
    ensures Entered(env, s, i) ==
      if s.q.queue != [] then TakenState(s, i, Taken(env, s))
      else if i == 0 && s.q.todo == 0 then ReturnedState(s)
      else BlockedState(s, i)
  {
    assert s.threads[i := Off] == s.threads;
  }

  lemma TakenKeeps(env: Env, s: Queue, i: nat, n: nat)
    requires i < |s.threads| && s.threads[i].Off? && 1 <= n <= |s.q.queue| && Sound(env, s)
    ensures Sound(env, TakenState(s, i, n))
  {
    hide Total, Outstanding, Popped;
    var batch := Popped(s.q.queue, n);
    UpdateAll(s.threads, i, Running(batch, s.q.allOk));
    PoppedJobs(s.q.queue, n);
    Regroup(multiset(s.q.queue), multiset(s.q.queue[..|s.q.queue| - n]), multiset(batch), Outstanding(s.threads));
  }

  lemma Regroup(all: multiset<Check>, left: multiset<Check>, batch: multiset<Check>, out: multiset<Check>)
    requires all == left + batch
    ensures all + out == left + (out - multiset{} + batch)
  {
  }

  lemma BlockedKeeps(env: Env, s: Queue, i: nat)
    requires i < |s.threads| && s.threads[i].Off? && s.q.queue == [] && (i == 0 ==> s.q.todo != 0) && Sound(env, s)
    ensures Sound(env, BlockedState(s, i))
  {
    hide Total, Outstanding;
    UpdateAll(s.threads, i, Blocked(false));
    NoNegative(s);
  }

  lemma NoNegative(s: Queue)
    requires CountsOk(s)
    ensures s.q.todo >= 0
  {
  }

  lemma ReturnedKeeps(env: Env, s: Queue)
    requires s.q.queue == [] && s.q.todo == 0 && Sound(env, s) && s.threads[0].Off?
    ensures Sound(env, ReturnedState(s))
  {
    hide Total, Outstanding;
    NoneRunning(s);
  }

  lemma EnteredWorkers(env: Env, s: Queue, i: nat)
    requires i < |s.threads| && s.threads[i].Off? && (i == 0 ==> WorkersOk(s))
    ensures WorkersOk(Entered(env, s, i))
  {
    EnteredShape(env, s, i);
    var s' := Entered(env, s, i);
    if s'.q.queue != [] {
      assert s'.threads[i].Running?;
      if i == 0 && exists k :: 0 < k < |s.threads| && !s.threads[k].Off? && !Sleeping(s.threads[k]) {
        var k :| 0 < k < |s.threads| && !s.threads[k].Off? && !Sleeping(s.threads[k]);
        assert s'.threads[k] == s.threads[k];
      }
    }
  }

  lemma EnteredKeeps(env: Env, s: Queue, i: nat)
    requires i < |s.threads| && s.threads[i].Off? && Sound(env, s) && (i == 0 ==> WorkersOk(s))
    ensures Inv(env, Entered(env, s, i))
  {
    hide Sound, WorkersOk, Entered, Taken;
    EnteredShape(env, s, i);
    EnteredWorkers(env, s, i);
    if s.q.queue != [] {
      TakenKeeps(env, s, i, Taken(env, s));
    } else if i == 0 && s.q.todo == 0 {
      ReturnedKeeps(env, s);
    } else {
      BlockedKeeps(env, s, i);
    }
  }

  // ---------- The verdict ----------

  /** When the master leaves the loop: its verdict is true exactly when every job added since the
      last Wait passes, and then every one was executed once; otherwise some executed job failed.
      The queue is idle again. */
  lemma VerdictIsTrue(env: Env, s: Queue, i: nat)
    requires i < |s.threads| && s.threads[i].Off? && Sound(env, s)
    requires Seek(s.q.(total := s.q.total + 1), i == 0, env.limit).1.Returns?
    ensures var verdict := Seek(s.q.(total := s.q.total + 1), i == 0, env.limit).1.verdict;
      && i == 0 && s.q.queue == [] && s.finished == s.added
      && (verdict <==> forall c :: c in s.added ==> env.pass(c))
      && (verdict ==> s.executed == s.added)
      && (!verdict ==> exists c :: c in s.executed && c in s.added && !env.pass(c))
    ensures var s' := Entered(env, s, i); Idle(s'.q) && s'.threads[0].Off? && s'.added == multiset{}
  {
    NoneRunning(s);
    assert multiset(s.q.queue) == multiset{};
    if !s.q.allOk {
      var c :| c in s.executed && !env.pass(c);
      assert c in s.finished;
    }
    AllAccounted(s.threads);
    UpdateAll(s.threads, i, Off);
  }

  lemma {:induction false} AllAccounted(ts: seq<Thread>)
    ensures Total(ts, Active) >= Total(ts, Waiting)
    ensures Total(ts, Active) == Total(ts, Waiting) <==> forall i :: 0 <= i < |ts| ==> !ts[i].Running?
  {
    if ts != [] {
      AllAccounted(ts[..|ts| - 1]);
    }
  }

  // ---------- Steps ----------

  /** The state after thread i has settled its batch and before it looks for more work. */
  function Settled(env: Env, s: Queue, i: nat): Queue
    requires i < |s.threads| && s.threads[i].Running?
  {
    var t := s.threads[i];
    var q := Settle(s.q, |t.batch|, BatchOk(env.pass, t.batch, t.ok));
    var ts := if q.todo == 0 && i != 0 then NotifyMaster(s.threads) else s.threads;
    s.(q := q.(total := q.total - 1), threads := ts[i := Off],
       finished := s.finished + multiset(t.batch),
       executed := s.executed + multiset(Executed(env.pass, t.batch, t.ok)))
  }

  /** The state from which the step's thread enters the wait loop. */
  function Before(env: Env, s: Queue, step: Step): Queue
    requires Enabled(s, step) && !step.Add?
  {
    match step
    case Enter(i) => s
    case Wake(i) => Without(s, i)
    case Finish(i) => Settled(env, s, i)
  }

  lemma ResumeSame(env: Env, s: Queue, s': Queue, q: Shared, ts: seq<Thread>, i: nat)
    requires i < |ts| && s.added == s'.added && s.finished == s'.finished && s.executed == s'.executed
    ensures Resume(env, s, q, ts, i) == Resume(env, s', q, ts[i := Off], i)
  {
    hide Seek;
    var t := Resume(env, s, q, ts, i).threads[i];
    assert ts[i := Off][i := t] == ts[i := t];
  }

  lemma ApplyEnters(env: Env, s: Queue, step: Step)
    requires Enabled(s, step) && !step.Add?
    ensures step.i < |Before(env, s, step).threads| && Before(env, s, step).threads[step.i].Off?
    ensures Apply(env, s, step) == Entered(env, Before(env, s, step), step.i)
  {
    hide Resume, Executed, BatchOk;
    var b, i := Before(env, s, step), step.i;
    match step
    case Enter(_) =>
    case Wake(_) => ResumeSame(env, s, b, s.q.(idle := s.q.idle - 1), s.threads, i);
    case Finish(_) =>
      var t := s.threads[i];
      var q := Settle(s.q, |t.batch|, BatchOk(env.pass, t.batch, t.ok));
      var ts := if q.todo == 0 && i != 0 then NotifyMaster(s.threads) else s.threads;
      ResumeSame(env, s.(finished := b.finished, executed := b.executed), b, q, ts, i);
  }

  lemma WakeSound(env: Env, s: Queue, i: nat)
    requires i < |s.threads| && s.threads[i].Blocked? && Inv(env, s)
    ensures Sound(env, Without(s, i)) && (i == 0 ==> WorkersOk(Without(s, i)))
  {
    hide Total, Outstanding;
    UpdateAll(s.threads, i, Off);
    if i == 0 {
      SameWorkers(s, Without(s, i));
    }
  }

  /** WorkersOk does not depend on the master, nor on anything but which jobs are queued. */
  lemma SameWorkers(s: Queue, s': Queue)
    requires WorkersOk(s) && |s'.threads| == |s.threads|
    requires s'.q.queue == s.q.queue
    requires forall k :: 0 < k < |s.threads| ==> s'.threads[k] == s.threads[k]
    ensures WorkersOk(s')
  {
    if s.q.queue != [] && exists k :: 0 < k < |s.threads| && !s.threads[k].Off? && !Sleeping(s.threads[k]) {
      var k :| 0 < k < |s.threads| && !s.threads[k].Off? && !Sleeping(s.threads[k]);
      assert s'.threads[k] == s.threads[k];
    }
  }

  lemma NotifyMasterSums(ts: seq<Thread>)
    ensures var r := NotifyMaster(ts);
      && Total(r, Active) == Total(ts, Active) && Total(r, Waiting) == Total(ts, Waiting)
      && Total(r, Size) == Total(ts, Size) && Outstanding(r) == Outstanding(ts)
      && Total(ts, Notified) <= Total(r, Notified) <= Total(ts, Notified) + 1
  {
    if 0 < |ts| && ts[0].Blocked? {
      UpdateAll(ts, 0, Blocked(true));
      assert Outstanding(ts) - Jobs(ts[0]) + Jobs(Blocked(true)) == Outstanding(ts);
    }
  }

  lemma SettledSums(env: Env, s: Queue, i: nat)
    requires i < |s.threads| && s.threads[i].Running?
    ensures var s' := Settled(env, s, i);
      && Total(s'.threads, Active) == Total(s.threads, Active) - 1
      && Total(s'.threads, Waiting) == Total(s.threads, Waiting)
      && Total(s'.threads, Size) == Total(s.threads, Size) - |s.threads[i].batch|
      && Total(s'.threads, Notified) <= Total(s.threads, Notified) + 1
      && Outstanding(s'.threads) == Outstanding(s.threads) - multiset(s.threads[i].batch)
      && multiset(s.threads[i].batch) <= Outstanding(s.threads)
  {
    hide Total, Outstanding, BatchOk, Executed;
    NotifyMasterSums(s.threads);
    UpdateAll(s.threads, i, Off);
    UpdateAll(NotifyMaster(s.threads), i, Off);
  }

  lemma SettledCounts(env: Env, s: Queue, i: nat)
    requires i < |s.threads| && s.threads[i].Running? && CountsOk(s) && BatchesOk(s) && MasterOk(s)
    ensures CountsOk(Settled(env, s, i)) && BatchesOk(Settled(env, s, i)) && MasterOk(Settled(env, s, i))
  {
    hide Total, Outstanding, BatchOk, Executed;
    SettledSums(env, s, i);
  }

  lemma SettledHistory(env: Env, s: Queue, i: nat)
    requires i < |s.threads| && s.threads[i].Running? && BatchesOk(s) && HistoryOk(env, s)
    ensures HistoryOk(env, Settled(env, s, i))
  {
    hide Total, Outstanding, BatchOk, Executed, NotifyMaster;
    var t := s.threads[i];
    SettledSums(env, s, i);
    MoveBatch(multiset(s.q.queue), Outstanding(s.threads), multiset(t.batch), s.finished);
    SettledVerdict(env, s, t);
  }

  /** The verdict part of HistoryOk after running the batch of t. */
  lemma SettledVerdict(env: Env, s: Queue, t: Thread)
    requires t.Running? && (!t.ok ==> !s.q.allOk) && HistoryOk(env, s)
    ensures var executed := s.executed + multiset(Executed(env.pass, t.batch, t.ok));
      var finished := s.finished + multiset(t.batch);
      var allOk := s.q.allOk && BatchOk(env.pass, t.batch, t.ok);
      && executed <= finished
      && (allOk ==> executed == finished && forall c :: c in executed ==> env.pass(c))
      && (!allOk ==> exists c :: c in executed && !env.pass(c))
  {
    hide Outstanding, BatchOk, Executed;
    var run := Executed(env.pass, t.batch, t.ok);
    var executed := s.executed + multiset(run);
    BatchVerdict(env.pass, t.batch, t.ok);
    assert t.batch == run + t.batch[|run|..];
    if !s.q.allOk {
      var c :| c in s.executed && !env.pass(c);
      assert c in executed;
    } else if !BatchOk(env.pass, t.batch, t.ok) {
      var c :| c in run && !env.pass(c);
      assert c in executed;
    }
  }

  lemma MoveBatch(queue: multiset<Check>, out: multiset<Check>, batch: multiset<Check>, finished: multiset<Check>)
    requires batch <= out
    ensures queue + out + finished == queue + (out - batch) + (finished + batch)
  {
  }

  lemma SettledWorkers(env: Env, s: Queue)
    requires 0 < |s.threads| && s.threads[0].Running? && WorkersOk(s)
    ensures WorkersOk(Settled(env, s, 0))
  {
    hide BatchOk, Executed;
    SameWorkers(s, Settled(env, s, 0));
  }

  lemma BeforeSound(env: Env, s: Queue, step: Step)
    requires Enabled(s, step) && !step.Add? && Inv(env, s)
    ensures var b := Before(env, s, step);
      step.i < |b.threads| && b.threads[step.i].Off? && Sound(env, b) && (step.i == 0 ==> WorkersOk(b))
  {
    hide CountsOk, BatchesOk, MasterOk, HistoryOk, WorkersOk, Settled, Without;
    ApplyEnters(env, s, step);
    match step
    case Enter(_) =>
    case Wake(i) => WakeSound(env, s, i);
    case Finish(i) =>
      SettledCounts(env, s, i);
      SettledHistory(env, s, i);
      if i == 0 {
        SettledWorkers(env, s);
      }
  }

  lemma {:induction false} NotifyAllSums(ts: seq<Thread>)
    ensures var r := NotifyAll(ts);
      && Total(r, Active) == Total(ts, Active) && Total(r, Waiting) == Total(ts, Waiting)
      && Total(r, Size) == Total(ts, Size) && Outstanding(r) == Outstanding(ts)
  {
    if ts != [] {
      var n := |ts| - 1;
      assert NotifyAll(ts)[..n] == NotifyAll(ts[..n]);
      NotifyAllSums(ts[..n]);
    }
  }

  lemma AddedSums(env: Env, s: Queue, checks: seq<Check>, chosen: nat)
    requires Enabled(s, Add(checks, chosen))
    ensures var ts := Apply(env, s, Add(checks, chosen)).threads;
      && Total(ts, Active) == Total(s.threads, Active) && Total(ts, Waiting) == Total(s.threads, Waiting)
      && Total(ts, Size) == Total(s.threads, Size) && Outstanding(ts) == Outstanding(s.threads)
  {
    hide Total, Outstanding;
    NotifyAllSums(s.threads);
    if 0 < chosen < |s.threads| && Sleeping(s.threads[chosen]) {
      UpdateAll(s.threads, chosen, Blocked(true));
      assert Outstanding(s.threads) - multiset{} + multiset{} == Outstanding(s.threads);
    }
  }

  lemma AddKeeps(env: Env, s: Queue, checks: seq<Check>, chosen: nat)
    requires Enabled(s, Add(checks, chosen)) && Inv(env, s)
    ensures Inv(env, Apply(env, s, Add(checks, chosen)))
  {
    hide CountsOk, BatchesOk, MasterOk, HistoryOk, WorkersOk, Apply;
    AddedSound(env, s, checks, chosen);
    AddedHistory(env, s, checks, chosen);
    AddedWorkers(env, s, checks, chosen);
  }

  lemma AddedSound(env: Env, s: Queue, checks: seq<Check>, chosen: nat)
    requires Enabled(s, Add(checks, chosen)) && CountsOk(s) && BatchesOk(s) && MasterOk(s)
    ensures var s' := Apply(env, s, Add(checks, chosen)); CountsOk(s') && BatchesOk(s') && MasterOk(s')
  {
    hide Total, Outstanding;
    AddedSums(env, s, checks, chosen);
  }

  lemma AddedHistory(env: Env, s: Queue, checks: seq<Check>, chosen: nat)
    requires Enabled(s, Add(checks, chosen)) && HistoryOk(env, s)
    ensures HistoryOk(env, Apply(env, s, Add(checks, chosen)))
  {
    hide Total, Outstanding;
    AddedSums(env, s, checks, chosen);
    JoinAdded(s.q.queue, checks, Outstanding(s.threads), s.finished);
  }

  lemma JoinAdded(queue: seq<Check>, checks: seq<Check>, out: multiset<Check>, finished: multiset<Check>)
    ensures multiset(queue) + out + finished + multiset(checks) == multiset(queue + checks) + out + finished
  {
  }

  lemma AddedWorkers(env: Env, s: Queue, checks: seq<Check>, chosen: nat)
    requires Enabled(s, Add(checks, chosen)) && WorkersOk(s)
    ensures WorkersOk(Apply(env, s, Add(checks, chosen)))
  {
    var s' := Apply(env, s, Add(checks, chosen));
    if checks == [] {
      assert s'.q.queue == s.q.queue;
    } else if !(forall k :: 0 < k < |s.threads| ==> s.threads[k].Off?) {
      var k :| 0 < k < |s.threads| && !s.threads[k].Off?;
      var awake := if |checks| == 1 && 0 < chosen < |s.threads| && Sleeping(s.threads[chosen]) then chosen else k;
      assert !s'.threads[awake].Off? && !Sleeping(s'.threads[awake]);
    }
  }

  /** Every step of every thread keeps the invariant. */
  lemma StepKeeps(env: Env, s: Queue, step: Step)
    requires Enabled(s, step) && Inv(env, s)
    ensures Inv(env, Apply(env, s, step))
  {
    hide Sound, WorkersOk, Before, Apply, Entered;
    if step.Add? {
      AddKeeps(env, s, step.checks, step.chosen);
    } else {
      ApplyEnters(env, s, step);
      BeforeSound(env, s, step);
      EnteredKeeps(env, Before(env, s, step), step.i);
    }
  }

  /** What Wait returns in a step, if it returns: true exactly when every job added since the last
      Wait passes, and then all of them were executed; false only when an executed one failed.
      Afterwards the queue is idle, the master has left and nothing has been added. */
  lemma WaitVerdict(env: Env, s: Queue, step: Step)
    requires Enabled(s, step) && !step.Add? && Inv(env, s)
    ensures var b := Before(env, s, step);
      var outcome := Seek(b.q.(total := b.q.total + 1), step.i == 0, env.limit).1;
      outcome.Returns? ==>
        && b.added == s.added
        && (outcome.verdict <==> forall c :: c in s.added ==> env.pass(c))
        && (outcome.verdict ==> b.executed == s.added)
        && (!outcome.verdict ==> exists c :: c in b.executed && c in s.added && !env.pass(c))
        && Idle(Apply(env, s, step).q)
        && Apply(env, s, step).threads[0].Off? && Apply(env, s, step).added == multiset{}
  {
    hide Sound, WorkersOk, Entered, Seek, Idle;
    ApplyEnters(env, s, step);
    BeforeSound(env, s, step);
    var b := Before(env, s, step);
    assert b.added == s.added;
    if Seek(b.q.(total := b.q.total + 1), step.i == 0, env.limit).1.Returns? {
      VerdictIsTrue(env, b, step.i);
    }
  }

  // ---------- Runs ----------

  predicate IsRun(env: Env, s: Queue, steps: seq<Step>)
    decreases |steps|
  {
    steps != [] ==> Enabled(s, steps[0]) && IsRun(env, Apply(env, s, steps[0]), steps[1..])
  }

  function Run(env: Env, s: Queue, steps: seq<Step>): Queue
    requires IsRun(env, s, steps)
    decreases |steps|
  {
    if steps == [] then s else Run(env, Apply(env, s, steps[0]), steps[1..])
  }

  lemma {:induction false} RunKeeps(env: Env, s: Queue, steps: seq<Step>)
    requires IsRun(env, s, steps) && Inv(env, s)
    ensures Inv(env, Run(env, s, steps))
    decreases |steps|
  {
    hide Inv, Apply, Enabled;
    if steps != [] {
      StepKeeps(env, s, steps[0]);
      RunKeeps(env, Apply(env, s, steps[0]), steps[1..]);
    }
  }

  // ---------- Between one Wait and the next controller ----------

  /** While the master is away and has added nothing the queue is idle, whatever the workers do:
      every one of them that started is waiting. */
  lemma IdleWhenUnused(env: Env, s: Queue)
    requires Inv(env, s) && s.threads[0].Off? && s.added == multiset{}
    ensures Idle(s.q) && s.q.queue == [] && forall t :: t in s.threads ==> !t.Running?
  {
    hide Total, Outstanding;
    NoParts(multiset(s.q.queue), Outstanding(s.threads), s.finished);
    assert |multiset(s.q.queue)| == 0;
    OutstandingSize(s.threads);
    NoneRunning(s);
    AllAccounted(s.threads);
  }

  lemma NoParts(a: multiset<Check>, b: multiset<Check>, c: multiset<Check>)
    requires a + b + c == multiset{}
    ensures a == b == c == multiset{}
  {
    assert |a + b + c| == |a| + |b| + |c|;
  }

  /** What the workers do: everything but the master's adding of jobs and its waiting for them. */
  predicate ByWorkers(steps: seq<Step>) {
    forall k :: 0 <= k < |steps| ==> !steps[k].Add? && steps[k] != Enter(0)
  }

  /** From the return of a Wait (or from the start) until the master uses the queue again, the queue
      is idle in every state, so the assert of the next controller holds. */
  lemma {:induction false} IdleUntilUsed(env: Env, s: Queue, steps: seq<Step>)
    requires Inv(env, s) && s.threads[0].Off? && s.added == multiset{}
    requires IsRun(env, s, steps) && ByWorkers(steps)
    ensures Idle(Run(env, s, steps).q)
    decreases |steps|
  {
    hide Inv, Apply, Idle;
    if steps == [] {
      IdleWhenUnused(env, s);
    } else {
      StepKeeps(env, s, steps[0]);
      WorkerStep(env, s, steps[0]);
      assert forall k :: 0 <= k < |steps[1..]| ==> steps[1..][k] == steps[k + 1];
      IdleUntilUsed(env, Apply(env, s, steps[0]), steps[1..]);
    }
  }

  lemma WorkerStep(env: Env, s: Queue, step: Step)
    requires Inv(env, s) && s.threads[0].Off? && s.added == multiset{} && Enabled(s, step)
    requires !step.Add? && step != Enter(0)
    ensures var s' := Apply(env, s, step); |s'.threads| > 0 && s'.threads[0].Off? && s'.added == multiset{}
  {
    hide Inv, Seek, Settle, Executed, BatchOk;
  }

  // ---------- No lost wake-up, and waiting ends ----------

  /** A step that needs no spurious wake-up, no new thread and no new job. */
  predicate Prompt(s: Queue, step: Step) {
    match step
    case Finish(i) => i < |s.threads| && s.threads[i].Running?
    case Wake(i) => i < |s.threads| && s.threads[i].Blocked? && s.threads[i].notified
    case _ => false
  }

  /** While the master is in Wait some thread can go on. */
  lemma NeverStuck(env: Env, s: Queue)
    requires Inv(env, s) && !s.threads[0].Off?
    ensures exists step :: Prompt(s, step)
  {
    if i :| 0 <= i < |s.threads| && s.threads[i].Running? {
      assert Prompt(s, Finish(i));
    } else {
      TotalZero(s.threads, Size);
      assert Prompt(s, Wake(0));
    }
  }

  /** While jobs are queued and a worker has started, some worker is running or about to look. */
  lemma QueueIsServed(env: Env, s: Queue, k: nat)
    requires Inv(env, s) && s.q.queue != [] && 0 < k < |s.threads| && !s.threads[k].Off?
    ensures exists step :: Prompt(s, step) && step.i > 0
  {
    var i :| 0 < i < |s.threads| && !s.threads[i].Off? && !Sleeping(s.threads[i]);
    assert Prompt(s, if s.threads[i].Running? then Finish(i) else Wake(i));
  }

  function Measure(s: Queue): nat
    requires s.q.todo >= 0
  {
    2 * s.q.todo + Total(s.threads, Notified)
  }

  lemma EnteredMeasure(env: Env, s: Queue, i: nat)
    requires i < |s.threads| && s.threads[i].Off?
    ensures var s' := Entered(env, s, i);
      s'.q.todo == s.q.todo && Total(s'.threads, Notified) == Total(s.threads, Notified)
  {
    hide Taken, Entered, Total, Popped;
    EnteredShape(env, s, i);
    UpdateAll(s.threads, i, Blocked(false));
    if s.q.queue != [] {
      UpdateAll(s.threads, i, Running(Popped(s.q.queue, Taken(env, s)), s.q.allOk));
    }
  }

  lemma PromptDecreases(env: Env, s: Queue, step: Step)
    requires Inv(env, s) && Prompt(s, step)
    ensures Inv(env, Apply(env, s, step))
    ensures s.q.todo >= 0 && Apply(env, s, step).q.todo >= 0 && Measure(Apply(env, s, step)) < Measure(s)
  {
    hide Total, HistoryOk, Apply, Entered, BatchOk, Executed, WorkersOk, Outstanding;
    StepKeeps(env, s, step);
    ApplyEnters(env, s, step);
    var b := Before(env, s, step);
    EnteredMeasure(env, b, step.i);
    if step.Wake? {
      UpdateAll(s.threads, step.i, Off);
    } else {
      SettledSums(env, s, step.i);
    }
  }

  predicate PromptRun(env: Env, s: Queue, steps: seq<Step>)
    decreases |steps|
  {
    steps != [] ==> Prompt(s, steps[0]) && PromptRun(env, Apply(env, s, steps[0]), steps[1..])
  }

  function PromptEnd(env: Env, s: Queue, steps: seq<Step>): Queue
    requires PromptRun(env, s, steps)
    decreases |steps|
  {
    if steps == [] then s else PromptEnd(env, Apply(env, s, steps[0]), steps[1..])
  }

  /** However the threads are scheduled, only so many steps are left, and when none can go on the
      master has left Wait. */
  lemma {:induction false} WaitEnds(env: Env, s: Queue, steps: seq<Step>)
    requires Inv(env, s) && PromptRun(env, s, steps)
    ensures s.q.todo >= 0 && |steps| <= Measure(s)
    ensures var end := PromptEnd(env, s, steps);
      Inv(env, end) && ((forall step :: !Prompt(end, step)) ==> end.threads[0].Off?)
    decreases |steps|
  {
    if steps == [] {
      if !s.threads[0].Off? {
        NeverStuck(env, s);
      }
    } else {
      PromptDecreases(env, s, steps[0]);
      WaitEnds(env, Apply(env, s, steps[0]), steps[1..]);
    }
  }
}
