/** Whole runs over a stack of coin caches, and the best block each level reports. */
module CoinsRuns {
  import opened Basics
  import opened VarInt
  import opened Coins
  import opened CoinsCache

  // ---------- HaveCoins ----------

  /** CCoinsViewCache::HaveCoins at a cache level. */
  predicate HaveCoins(db: Database, ls: seq<Cache>, n: nat, k: Key)
    requires 0 < n <= |ls|
  {
    var c := Raw(db, ls, n, k);
    c.Some? && c.value.outs != []
  }

  /** Testing for a non-empty output list is testing for an unspent output. */
  lemma HaveCoinsExact(db: Database, ls: seq<Cache>, n: nat, k: Key)
    requires 0 < n <= |ls| && Inv(db, ls)
    ensures HaveCoins(db, ls, n, k) <==> Visible(db, ls, n, k).Some?
  {
    RawClean(db, ls, n, k);
    if Raw(db, ls, n, k).Some? {
      CleanupKeeps(Raw(db, ls, n, k).value);
    }
  }

  // ---------- Runs ----------

  /** What the node does with a stack of views: reads at any level; writes, flushes and discards
      only at the top; a new view only on the top. */
  datatype Op =
    | Read(level: nat, key: Key)
    | Write(key: Key, coins: Coins)
    | Push
    | Pop
    | FlushTop

  predicate Enabled(op: Op, depth: nat) {
    match op
    case Read(level, _) => level <= depth
    case Push => true
    case _ => depth > 0
  }

  type Stack = (Database, seq<Cache>)

  function Apply(op: Op, s: Stack): Stack
    requires Enabled(op, |s.1|)
  {
    match op
    case Read(level, k) => (s.0, Fetch(s.0, s.1, level, k))
    case Write(k, c) => (s.0, Modify(s.0, s.1, k, c))
    case Push => (s.0, s.1 + [map[]])
    case Pop => (s.0, s.1[..|s.1| - 1])
    case FlushTop => Flush(s.0, s.1)
  }

  /** The same on plain maps, one for each level, without caches and flags. */
  function Put(m: map<Key, Coins>, k: Key, c: Coins): map<Key, Coins> {
    if Pruned(c) then m - {k} else m[k := Cleanup(c)]
  }

  function PlainApply(op: Op, ms: seq<map<Key, Coins>>): seq<map<Key, Coins>>
    requires 0 < |ms| && Enabled(op, |ms| - 1)
  {
    var top := |ms| - 1;
    match op
    case Read(_, _) => ms
    case Write(k, c) => ms[top := Put(ms[top], k, c)]
    case Push => ms + [ms[top]]
    case Pop => ms[..top]
    case FlushTop => ms[top - 1 := ms[top]]
  }

  /** Every level shows its plain map. */
  ghost predicate Agree(ms: seq<map<Key, Coins>>, s: Stack) {
    && |ms| == |s.1| + 1
    && forall n: nat, k: Key :: n <= |s.1| ==> Held(ms[n], k) == Visible(s.0, s.1, n, k)
  }

  lemma PushKeeps(db: Database, ls: seq<Cache>)
    requires Inv(db, ls)
    ensures Inv(db, ls + [map[]])
    ensures forall n: nat, k: Key :: n <= |ls| ==> Visible(db, ls + [map[]], n, k) == Visible(db, ls, n, k)
    ensures forall k: Key :: Visible(db, ls + [map[]], |ls| + 1, k) == Visible(db, ls, |ls|, k)
  {
    var ls' := ls + [map[]];
    forall n: nat, k: Key | n <= |ls| ensures Raw(db, ls', n, k) == Raw(db, ls, n, k) {
      RawFrame(db, ls, ls', n, k);
    }
    forall i: nat, k: Key | i < |ls'| ensures EntryOk(db, ls', i, k) {
      if i < |ls| {
        InvEntry(db, ls, i, k);
      }
    }
  }

  lemma PopKeeps(db: Database, ls: seq<Cache>)
    requires 0 < |ls| && Inv(db, ls)
    ensures Inv(db, ls[..|ls| - 1])
    ensures forall n: nat, k: Key :: n < |ls| ==> Visible(db, ls[..|ls| - 1], n, k) == Visible(db, ls, n, k)
  {
    var ls' := ls[..|ls| - 1];
    forall n: nat, k: Key | n < |ls| ensures Raw(db, ls', n, k) == Raw(db, ls, n, k) {
      RawFrame(db, ls, ls', n, k);
    }
    forall i: nat, k: Key | i < |ls'| ensures EntryOk(db, ls', i, k) {
      InvEntry(db, ls, i, k);
    }
  }

  /** Each operation on the caches does what it does on the plain maps. */
  lemma StepAgrees(op: Op, ms: seq<map<Key, Coins>>, s: Stack)
    requires Inv(s.0, s.1) && Agree(ms, s) && Enabled(op, |s.1|)
    ensures Inv(Apply(op, s).0, Apply(op, s).1) && Agree(PlainApply(op, ms), Apply(op, s))
  {
    hide Inv, Cleanup, Pruned;
    var (db, ls) := s;
    match op
    case Read(level, k) => ReadKeeps(db, ls, level, k);
    case Write(k, c) => {
      ModifyKeeps(db, ls, k, c);
      CleanupKeeps(c);
    }
    case Push => PushKeeps(db, ls);
    case Pop => PopKeeps(db, ls);
    case FlushTop => FlushKeeps(db, ls);
  }

  /** Operations from the first on; those the depth does not allow are left out. */
  function Run(ops: seq<Op>, s: Stack): Stack
    decreases |ops|
  {
    if ops == [] then s
    else Run(ops[1..], if Enabled(ops[0], |s.1|) then Apply(ops[0], s) else s)
  }

  function PlainRun(ops: seq<Op>, ms: seq<map<Key, Coins>>): seq<map<Key, Coins>>
    requires 0 < |ms|
    decreases |ops|
  {
    if ops == [] then ms
    else PlainRun(ops[1..], if Enabled(ops[0], |ms| - 1) then PlainApply(ops[0], ms) else ms)
  }

  /** A database of clean, unpruned records, as BatchWrite leaves it. */
  predicate Stored(db: Database) {
    forall k :: k in db ==> Clean(db[k]) && !Pruned(db[k])
  }

  /** Whatever is read, written, stacked, discarded and flushed, in any order: every level always
      shows what the plain maps hold. */
  lemma RunAgrees(ops: seq<Op>, db: Database)
    requires Stored(db)
    ensures var (db', ls) := Run(ops, (db, []));
      Inv(db', ls) && Agree(PlainRun(ops, [db]), (db', ls))
  {
    forall n: nat, k: Key | n <= 0 ensures Held([db][n], k) == Visible(db, [], n, k) {
    }
    RunAgreesFrom(ops, [db], (db, []));
  }

  lemma {:induction false} RunAgreesFrom(ops: seq<Op>, ms: seq<map<Key, Coins>>, s: Stack)
    requires Inv(s.0, s.1) && Agree(ms, s)
    ensures var s' := Run(ops, s); Inv(s'.0, s'.1) && Agree(PlainRun(ops, ms), s')
    decreases |ops|
  {
    hide Inv, Apply, PlainApply;
    if ops != [] {
      if Enabled(ops[0], |s.1|) {
        StepAgrees(ops[0], ms, s);
        RunAgreesFrom(ops[1..], PlainApply(ops[0], ms), Apply(ops[0], s));
      } else {
        RunAgreesFrom(ops[1..], ms, s);
      }
    }
  }

  // ---------- The best block ----------

  /** GetBestBlock at level n; zero means not asked yet. */
  function Best(dbBest: int, bs: seq<int>, n: nat): int
    requires n <= |bs|
  {
    if n == 0 then dbBest else if bs[n - 1] != 0 then bs[n - 1] else Best(dbBest, bs, n - 1)
  }

  /** GetBestBlock keeps the answer in every cache it passed. */
  function AskBest(dbBest: int, bs: seq<int>, n: nat): (r: seq<int>)
    requires n <= |bs|
    ensures |r| == |bs|
  {
    if n == 0 || bs[n - 1] != 0 then bs else AskBest(dbBest, bs, n - 1)[n - 1 := Best(dbBest, bs, n - 1)]
  }

  lemma {:induction false} AskKeepsBest(dbBest: int, bs: seq<int>, n: nat, m: nat)
    requires n <= |bs| && m <= |bs|
    ensures Best(dbBest, AskBest(dbBest, bs, n), m) == Best(dbBest, bs, m)
    ensures forall i :: n <= i < |bs| ==> AskBest(dbBest, bs, n)[i] == bs[i]
    decreases n, m
  {
    if n > 0 && bs[n - 1] == 0 {
      AskKeepsBest(dbBest, bs, n - 1, m);
      if m > 0 {
        AskKeepsBest(dbBest, bs, n, m - 1);
        AskKeepsBest(dbBest, bs, n - 1, m - 1);
      }
    }
  }

  /** The best blocks after flushing the top: the raw field is handed down, and a zero is not
      written to the database. */
  function FlushBest(dbBest: int, bs: seq<int>): (r: (int, seq<int>))
    requires 0 < |bs|
    ensures |r.1| == |bs|
  {
    var n := |bs|;
    if n == 1 then (if bs[0] != 0 then bs[0] else dbBest, bs) else (dbBest, bs[n - 2 := bs[n - 1]])
  }

  lemma {:induction false} BestFrame(dbBest: int, bs: seq<int>, bs': seq<int>, n: nat)
    requires n <= |bs| && n <= |bs'| && bs[..n] == bs'[..n]
    ensures Best(dbBest, bs, n) == Best(dbBest, bs', n)
  {
    if n > 0 {
      assert bs[..n][n - 1] == bs'[..n][n - 1];
      assert bs[..n - 1] == bs[..n][..n - 1] == bs'[..n - 1];
      BestFrame(dbBest, bs, bs', n - 1);
    }
  }

  /** The level below reports the flushed view's best block exactly when it is the database, when
      the flushed view's own was set, or when the two levels below agree anyway. */
  lemma FlushBestExact(dbBest: int, bs: seq<int>)
    requires 0 < |bs|
    ensures var (dbBest', bs') := FlushBest(dbBest, bs);
      var n := |bs|;
      (Best(dbBest', bs', n - 1) == Best(dbBest, bs, n))
      <==> (n == 1 || bs[n - 1] != 0 || Best(dbBest, bs, n - 1) == Best(dbBest, bs, n - 2))
  {
    var n := |bs|;
    if n > 1 {
      var bs' := FlushBest(dbBest, bs).1;
      BestFrame(dbBest, bs, bs', n - 2);
    }
  }

  /** A cache that took a zero this way reports an older block: two caches, both asked before. */
  lemma UnsetBestIsLost()
    ensures Best(1, [2, 0], 2) == 2 && Best(FlushBest(1, [2, 0]).0, FlushBest(1, [2, 0]).1, 1) == 1
  {
  }
}
