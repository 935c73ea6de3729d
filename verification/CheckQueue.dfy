/** The master/worker queue of verification jobs, src/checkqueue.h. Every section between two lock
    points of the mutex is one atomic step; a thread is between steps when it is outside the loop,
    blocked on its condition variable, or running the batch it took. */
module CheckQueue {
  import opened Basics

  type Check = nat

  // ---------- The fields behind the mutex, and the code that runs under it ----------

  datatype Shared = Shared(queue: seq<Check>, idle: int, total: int, allOk: bool, todo: int)

  /** How a critical section ends. */
  datatype Outcome = Returns(verdict: bool) | Waits | Takes(batch: seq<Check>, ok: bool)

  /** The clean-up of the previous batch. */
  function Settle(q: Shared, done: nat, ok: bool): Shared {
    q.(allOk := q.allOk && ok, todo := q.todo - done)
  }

  /** Aims for smaller batches the more threads there are; never none, never more than the limit
      unless that is zero. The divisor is positive in every reachable state. */
  function BatchSize(size: nat, threads: int, limit: nat): (n: nat)
    requires 0 < size
    ensures 1 <= n <= size && (n <= limit || n == 1)
  {
    var share := if threads > 0 then (DivideShrinks(size, threads); size / threads) else 0;
    var n := if limit < share then limit else share;
    if n < 1 then 1 else n
  }

  /** The batch is the largest that keeps to the limit and to an even share among the threads, but at least one job. */
  lemma BatchIsLargest(size: nat, threads: nat, limit: nat, k: nat)
    requires 0 < size && threads > 0
    ensures var n := BatchSize(size, threads, limit);
      && (n == 1 || (n <= limit && n * threads <= size))
      && (k <= limit && k * threads <= size ==> k <= n)
  {
    Quotient(size, threads);
    DivideShrinks(size, threads);
    var share := size / threads;
    var n := BatchSize(size, threads, limit);
    if n != 1 {
      TimesMonotone(n, share, threads);
    }
    if k > share {
      TimesMonotone(share + 1, k, threads);
    }
  }

  /** The last n jobs, last first. */
  function Popped(s: seq<Check>, n: nat): (r: seq<Check>)
    requires n <= |s|
    ensures |r| == n
  {
    seq(n, i requires 0 <= i < n => s[|s| - 1 - i])
  }

  /** The wait loop once the lock is held: return, block, or take a batch. */
  function Seek(q: Shared, master: bool, limit: nat): (Shared, Outcome)
  {
    if q.queue == [] then
      if master && q.todo == 0 then (q.(total := q.total - 1, allOk := true), Returns(q.allOk))
      else (q.(idle := q.idle + 1), Waits)
    else
      var n := BatchSize(|q.queue|, q.total + q.idle + 1, limit);
      (q.(queue := q.queue[..|q.queue| - n]), Takes(Popped(q.queue, n), q.allOk))
  }

  predicate Idle(q: Shared) {
    q.total == q.idle && q.todo == 0 && q.allOk
  }

  // ---------- Running a batch ----------

  /** The jobs of a batch that are really executed: up to the first that fails. */
  function Executed(pass: Check -> bool, batch: seq<Check>, ok: bool): (r: seq<Check>)
    ensures |r| <= |batch| && r == batch[..|r|]
  {
    if !ok || batch == [] then [] else [batch[0]] + Executed(pass, batch[1..], pass(batch[0]))
  }

  function BatchOk(pass: Check -> bool, batch: seq<Check>, ok: bool): (r: bool) {
    if batch == [] || !ok then ok else BatchOk(pass, batch[1..], pass(batch[0]))
  }

  /** A batch ends well exactly when it started well and all its jobs pass, and then all were
      executed; a batch that started well and ends badly executed a failing job. */
  lemma {:induction false} BatchVerdict(pass: Check -> bool, batch: seq<Check>, ok: bool)
    ensures BatchOk(pass, batch, ok) <==> ok && forall c :: c in batch ==> pass(c)
    ensures BatchOk(pass, batch, ok) ==> Executed(pass, batch, ok) == batch
    ensures ok && !BatchOk(pass, batch, ok) ==> exists c :: c in Executed(pass, batch, ok) && !pass(c)
    ensures ok && BatchOk(pass, batch, ok) ==> forall c :: c in Executed(pass, batch, ok) ==> pass(c)
    ensures !ok ==> Executed(pass, batch, ok) == []
  {
    if batch != [] && ok {
      BatchVerdict(pass, batch[1..], pass(batch[0]));
      assert batch == [batch[0]] + batch[1..];
      if pass(batch[0]) && !BatchOk(pass, batch, ok) {
        var c :| c in Executed(pass, batch[1..], true) && !pass(c);
        assert c in Executed(pass, batch, ok);
      }
      if !pass(batch[0]) {
        assert batch[0] in Executed(pass, batch, ok);
      }
    }
  }

  // ---------- Threads ----------

  datatype Thread = Off | Blocked(notified: bool) | Running(batch: seq<Check>, ok: bool)

  /** Thread 0 is the master. The last three fields record history since the last Wait returned:
      the jobs added, those whose batch is finished, and those really executed. */
  datatype State<Q, T, H> = State(q: Q, threads: T, added: H, finished: H, executed: H)

  type Queue = State<Shared, seq<Thread>, multiset<Check>>

  datatype Env = Env(pass: Check -> bool, limit: nat)

  datatype Step =
    | Enter(i: nat)
    | Finish(i: nat)
    | Wake(i: nat)
    | Add(checks: seq<Check>, chosen: nat)

  /** condMaster.notify_one. */
  function NotifyMaster(ts: seq<Thread>): (r: seq<Thread>)
    ensures |r| == |ts|
  {
    if 0 < |ts| && ts[0].Blocked? then ts[0 := Blocked(true)] else ts
  }

  /** condWorker.notify_all. */
  function NotifyAll(ts: seq<Thread>): (r: seq<Thread>)
    ensures |r| == |ts|
  {
    seq(|ts|, i requires 0 <= i < |ts| => if i > 0 && ts[i].Blocked? then Blocked(true) else ts[i])
  }

  predicate Sleeping(t: Thread) {
    t.Blocked? && !t.notified
  }

  /** A thread that left the wait loop or was blocked goes on. */
  function Resume(env: Env, s: Queue, q: Shared, ts: seq<Thread>, i: nat): Queue
    requires i < |ts|
  {
    var (q', outcome) := Seek(q, i == 0, env.limit);
    match outcome
    case Returns(_) => s.(q := q', threads := ts[i := Off], added := multiset{}, finished := multiset{}, executed := multiset{})
    case Waits => s.(q := q', threads := ts[i := Blocked(false)])
    case Takes(batch, ok) => s.(q := q', threads := ts[i := Running(batch, ok)])
  }

  /** Which steps the threads can take. A blocked thread may also wake without being notified.
      Only the master adds jobs, and not while it waits. A single job is announced to one
      sleeping worker, if there is one. */
  predicate Enabled(s: Queue, step: Step) {
    match step
    case Enter(i) => i < |s.threads| && s.threads[i].Off?
    case Finish(i) => i < |s.threads| && s.threads[i].Running?
    case Wake(i) => i < |s.threads| && s.threads[i].Blocked?
    case Add(checks, chosen) =>
      && 0 < |s.threads| && s.threads[0].Off?
      && (|checks| == 1 ==>
           (0 < chosen < |s.threads| && Sleeping(s.threads[chosen]))
           || forall i :: 0 < i < |s.threads| ==> !Sleeping(s.threads[i]))
  }

  function Apply(env: Env, s: Queue, step: Step): Queue
    requires Enabled(s, step)
  {
    match step
    case Enter(i) => Resume(env, s, s.q.(total := s.q.total + 1), s.threads, i)
    case Wake(i) => Resume(env, s, s.q.(idle := s.q.idle - 1), s.threads, i)
    case Finish(i) =>
      var t := s.threads[i];
      var q := Settle(s.q, |t.batch|, BatchOk(env.pass, t.batch, t.ok));
      var ts := if q.todo == 0 && i != 0 then NotifyMaster(s.threads) else s.threads;
      var s' := s.(finished := s.finished + multiset(t.batch),
                   executed := s.executed + multiset(Executed(env.pass, t.batch, t.ok)));
      Resume(env, s', q, ts, i)
    case Add(checks, chosen) =>
      s.(q := s.q.(queue := s.q.queue + checks, todo := s.q.todo + |checks|),
         threads := if |checks| > 1 then NotifyAll(s.threads)
                    else if |checks| == 1 && 0 < chosen < |s.threads| && Sleeping(s.threads[chosen])
                    then s.threads[chosen := Blocked(true)]
                    else s.threads,
         added := s.added + multiset(checks))
  }

  // ---------- Sums over the threads ----------

  function Total(ts: seq<Thread>, f: Thread -> nat): nat {
    if ts == [] then 0 else Total(ts[..|ts| - 1], f) + f(ts[|ts| - 1])
  }

  lemma {:induction false} TotalUpdate(ts: seq<Thread>, f: Thread -> nat, i: nat, t: Thread)
    requires i < |ts|
    ensures Total(ts[i := t], f) == Total(ts, f) - f(ts[i]) + f(t)
    ensures f(ts[i]) <= Total(ts, f)
  {
    var n := |ts| - 1;
    if i == n {
      assert ts[i := t][..n] == ts[..n];
    } else {
      assert ts[i := t][..n] == ts[..n][i := t];
      TotalUpdate(ts[..n], f, i, t);
    }
  }

  lemma {:induction false} TotalZero(ts: seq<Thread>, f: Thread -> nat)
    ensures Total(ts, f) == 0 <==> forall t :: t in ts ==> f(t) == 0
  {
    if ts != [] {
      TotalZero(ts[..|ts| - 1], f);
      assert ts == ts[..|ts| - 1] + [ts[|ts| - 1]];
    }
  }

  function Active(t: Thread): nat { if t.Off? then 0 else 1 }
  function Waiting(t: Thread): nat { if t.Blocked? then 1 else 0 }
  function Notified(t: Thread): nat { if t.Blocked? && t.notified then 1 else 0 }
  function Size(t: Thread): nat { if t.Running? then |t.batch| else 0 }
  function Jobs(t: Thread): multiset<Check> { if t.Running? then multiset(t.batch) else multiset{} }

  /** The jobs in the batches being run. */
  function Outstanding(ts: seq<Thread>): multiset<Check> {
    if ts == [] then multiset{} else Outstanding(ts[..|ts| - 1]) + Jobs(ts[|ts| - 1])
  }

  lemma SwapPart(all: multiset<Check>, part: multiset<Check>, other: multiset<Check>, rest: multiset<Check>)
    requires part <= all
    ensures (all - part + other) + rest == (all + rest) - part + other && part <= all + rest
  {
  }

  lemma {:induction false} OutstandingUpdate(ts: seq<Thread>, i: nat, t: Thread)
    requires i < |ts|
    ensures Jobs(ts[i]) <= Outstanding(ts)
    ensures Outstanding(ts[i := t]) == Outstanding(ts) - Jobs(ts[i]) + Jobs(t)
  {
    hide Jobs;
    var n := |ts| - 1;
    if i == n {
      assert ts[i := t][..n] == ts[..n];
    } else {
      assert ts[i := t][..n] == ts[..n][i := t];
      OutstandingUpdate(ts[..n], i, t);
      SwapPart(Outstanding(ts[..n]), Jobs(ts[i]), Jobs(t), Jobs(ts[n]));
    }
  }

  lemma {:induction false} OutstandingSize(ts: seq<Thread>)
    ensures |Outstanding(ts)| == Total(ts, Size)
  {
    if ts != [] {
      OutstandingSize(ts[..|ts| - 1]);
    }
  }
}
