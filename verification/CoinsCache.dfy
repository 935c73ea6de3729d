/** Coin caches on a database, src/coins.cpp and src/txdb.cpp: level n is the view of cache n - 1. */
module CoinsCache {
  import opened Basics
  import opened VarInt
  import opened Coins

  /** A transaction id. */
  datatype Key = Key(hash: nat)

  /** A cached record. Dirty: it may differ from the level below; fresh: the level below has no
      unspent output for it. */
  datatype CacheEntry<C> = Entry(coins: C, isDirty: bool, isFresh: bool)

  type Cache = map<Key, CacheEntry<Coins>>
  type Database = map<Key, Coins>

  // ---------- What a level shows ----------

  /** The record GetCoins finds at level n. */
  function Raw(db: Database, ls: seq<Cache>, n: nat, k: Key): Option<Coins>
    requires n <= |ls|
  {
    if n == 0 then if k in db then Some(db[k]) else None
    else if k in ls[n - 1] then Some(ls[n - 1][k].coins)
    else Raw(db, ls, n - 1, k)
  }

  function Unspent(c: Option<Coins>): Option<Coins> {
    if c.Some? && Pruned(c.value) then None else c
  }

  /** A pruned record counts as an absent one. */
  function Visible(db: Database, ls: seq<Cache>, n: nat, k: Key): Option<Coins>
    requires n <= |ls|
  {
    Unspent(Raw(db, ls, n, k))
  }

  lemma {:induction false} RawFrame(db: Database, ls: seq<Cache>, ls': seq<Cache>, n: nat, k: Key)
    requires n <= |ls| && n <= |ls'|
    requires forall i :: 0 <= i < n ==> (k in ls[i] <==> k in ls'[i]) && (k in ls[i] ==> ls[i][k] == ls'[i][k])
    ensures Raw(db, ls, n, k) == Raw(db, ls', n, k)
  {
    if n > 0 {
      RawFrame(db, ls, ls', n - 1, k);
    }
  }

  lemma RawReplace(db: Database, ls: seq<Cache>, i: nat, cache: Cache, m: nat, k: Key)
    requires m <= i < |ls|
    ensures Raw(db, ls[i := cache], m, k) == Raw(db, ls, m, k)
  {
    RawFrame(db, ls, ls[i := cache], m, k);
  }

  // ---------- The operations ----------

  /** FetchCoins at level n: fills every cache on the way down to the first that has the record. */
  function Fetch(db: Database, ls: seq<Cache>, n: nat, k: Key): (r: seq<Cache>)
    requires n <= |ls|
    ensures |r| == |ls|
    ensures forall i :: n <= i < |ls| ==> r[i] == ls[i]
  {
    if n == 0 || k in ls[n - 1] then ls
    else
      var below := Fetch(db, ls, n - 1, k);
      match Raw(db, ls, n - 1, k)
      case None => below
      case Some(c) => below[n - 1 := below[n - 1][k := Entry(c, false, Pruned(c))]]
  }

  /** The entry ModifyCoins hands out at the top. */
  function Opened(db: Database, ls: seq<Cache>, k: Key): CacheEntry<Coins>
    requires 0 < |ls|
  {
    var n := |ls|;
    if k in ls[n - 1] then ls[n - 1][k].(isDirty := true)
    else match Raw(db, ls, n - 1, k)
      case None => Entry(Empty(), true, true)
      case Some(c) => Entry(c, true, Pruned(c))
  }

  /** The caches while a modifier is open. */
  function BeginModify(db: Database, ls: seq<Cache>, k: Key): (r: seq<Cache>)
    requires 0 < |ls|
    ensures |r| == |ls|
  {
    var n := |ls|;
    var below := if k in ls[n - 1] then ls else Fetch(db, ls, n - 1, k);
    below[n - 1 := below[n - 1][k := Opened(db, ls, k)]]
  }

  /** The modifier writes a record and is destroyed. */
  function EndModify(cache: Cache, k: Key, c: Coins): Cache
    requires k in cache
  {
    var e := cache[k].(coins := Cleanup(c));
    if e.isFresh && Pruned(e.coins) then cache - {k} else cache[k := e]
  }

  function Modify(db: Database, ls: seq<Cache>, k: Key, c: Coins): (r: seq<Cache>)
    requires 0 < |ls|
    ensures |r| == |ls|
  {
    var open := BeginModify(db, ls, k);
    open[|ls| - 1 := EndModify(open[|ls| - 1], k, c)]
  }

  /** One entry of BatchWrite into a cache: what the receiving cache then holds for the key. */
  function Merge(child: CacheEntry<Coins>, own: Option<CacheEntry<Coins>>): Option<CacheEntry<Coins>> {
    if !child.isDirty then own
    else match own
      case None => if Pruned(child.coins) then None else Some(Entry(child.coins, true, true))
      case Some(e) => if e.isFresh && Pruned(child.coins) then None else Some(Entry(child.coins, true, e.isFresh))
  }

  /** The source asserts that a record moved up to a cache without it is fresh. */
  predicate MergeAsserts(child: CacheEntry<Coins>, own: Option<CacheEntry<Coins>>) {
    child.isDirty && own.None? && !Pruned(child.coins) ==> child.isFresh
  }

  function Held<V>(m: map<Key, V>, k: Key): Option<V> {
    if k in m then Some(m[k]) else None
  }

  function MergedEntry(child: Cache, own: Cache, k: Key): Option<CacheEntry<Coins>> {
    if k in child then Merge(child[k], Held(own, k)) else Held(own, k)
  }

  function MergeAll(child: Cache, own: Cache): Cache {
    map k | k in child.Keys + own.Keys && MergedEntry(child, own, k).Some? :: MergedEntry(child, own, k).value
  }

  function WrittenRecord(child: Cache, db: Database, k: Key): Option<Coins> {
    if k in child && child[k].isDirty then Unspent(Some(child[k].coins)) else Held(db, k)
  }

  /** BatchWrite into the database: dirty records are written, pruned ones erased. */
  function WriteAll(child: Cache, db: Database): Database {
    map k | k in child.Keys + db.Keys && WrittenRecord(child, db, k).Some? :: WrittenRecord(child, db, k).value
  }

  /** Flush of the topmost cache. */
  function Flush(db: Database, ls: seq<Cache>): (r: (Database, seq<Cache>))
    requires 0 < |ls|
    ensures |r.1| == |ls|
  {
    var n := |ls|;
    if n == 1 then (WriteAll(ls[0], db), [map[]])
    else (db, ls[n - 2 := MergeAll(ls[n - 1], ls[n - 2])][n - 1 := map[]])
  }

  // ---------- The invariant ----------

  /** What the flags of an entry for k in cache i promise about the levels below. */
  predicate GoodEntry(db: Database, ls: seq<Cache>, i: nat, k: Key, e: CacheEntry<Coins>)
    requires i < |ls|
  {
    && (!e.isDirty ==> Raw(db, ls, i, k) == Some(e.coins))
    && (e.isFresh ==> Visible(db, ls, i, k) == None)
    && (!e.isFresh && i > 0 ==> k in ls[i - 1])
    && Clean(e.coins)
  }

  predicate EntryOk(db: Database, ls: seq<Cache>, i: nat, k: Key)
    requires i < |ls|
  {
    k in ls[i] ==> GoodEntry(db, ls, i, k, ls[i][k])
  }

  ghost predicate Inv(db: Database, ls: seq<Cache>) {
    && (forall k :: k in db ==> Clean(db[k]))
    && forall i: nat, k: Key :: i < |ls| ==> EntryOk(db, ls, i, k)
  }

  // ---------- Reading ----------

  /** Fetching changes no record that any level finds, only touches this key below level n, and
      leaves the key cached there when there is a record at all. */
  lemma {:induction false} FetchKeepsRaw(db: Database, ls: seq<Cache>, n: nat, k: Key, m: nat, j: Key)
    requires n <= |ls| && m <= |ls|
    ensures Raw(db, Fetch(db, ls, n, k), m, j) == Raw(db, ls, m, j)
    ensures forall i :: 0 <= i < |ls| ==> (j in ls[i] ==> j in Fetch(db, ls, n, k)[i] && Fetch(db, ls, n, k)[i][j] == ls[i][j])
    ensures j != k ==> forall i :: 0 <= i < |ls| ==> (j in Fetch(db, ls, n, k)[i] ==> j in ls[i])
    decreases n, m
  {
    if n > 0 && k !in ls[n - 1] {
      FetchKeepsRaw(db, ls, n - 1, k, m, j);
      var below, r := Fetch(db, ls, n - 1, k), Fetch(db, ls, n, k);
      if m > 0 {
        FetchKeepsRaw(db, ls, n, k, m - 1, j);
        FetchKeepsRaw(db, ls, n - 1, k, m - 1, j);
      }
    }
  }

  lemma {:induction false} FetchKeepsOk(db: Database, ls: seq<Cache>, n: nat, k: Key, i: nat, j: Key)
    requires n <= |ls| && i < |ls| && Inv(db, ls)
    ensures EntryOk(db, Fetch(db, ls, n, k), i, j)
    ensures n > 0 && Raw(db, ls, n, k).Some? ==> k in Fetch(db, ls, n, k)[n - 1]
    decreases n
  {
    var r := Fetch(db, ls, n, k);
    FetchKeepsRaw(db, ls, n, k, i, j);
    assert EntryOk(db, ls, i, j);
    if n > 0 && k !in ls[n - 1] {
      FetchKeepsOk(db, ls, n - 1, k, i, j);
      var below := Fetch(db, ls, n - 1, k);
      FetchKeepsRaw(db, ls, n - 1, k, i, j);
      if Raw(db, ls, n - 1, k).Some? && i == n - 1 && j == k {
        RawClean(db, ls, n - 1, k);
      }
    }
  }

  lemma {:induction false} RawClean(db: Database, ls: seq<Cache>, n: nat, k: Key)
    requires n <= |ls| && Inv(db, ls)
    ensures Raw(db, ls, n, k).Some? ==> Clean(Raw(db, ls, n, k).value)
  {
    if n > 0 {
      assert EntryOk(db, ls, n - 1, k);
      RawClean(db, ls, n - 1, k);
    }
  }

  /** Reads at any level, through any stack of caches, keep the invariant and every level's map. */
  lemma ReadKeeps(db: Database, ls: seq<Cache>, n: nat, k: Key)
    requires n <= |ls| && Inv(db, ls)
    ensures Inv(db, Fetch(db, ls, n, k))
    ensures forall m: nat, j: Key :: m <= |ls| ==> Raw(db, Fetch(db, ls, n, k), m, j) == Raw(db, ls, m, j)
  {
    forall i: nat, j: Key | i < |ls| ensures EntryOk(db, Fetch(db, ls, n, k), i, j) {
      FetchKeepsOk(db, ls, n, k, i, j);
    }
    forall m: nat, j: Key | m <= |ls| ensures Raw(db, Fetch(db, ls, n, k), m, j) == Raw(db, ls, m, j) {
      FetchKeepsRaw(db, ls, n, k, m, j);
    }
  }

  // ---------- Writing ----------

  /** The caches with those below the top filled as ModifyCoins does. */
  function Filled(db: Database, ls: seq<Cache>, k: Key): (r: seq<Cache>)
    requires 0 < |ls|
    ensures |r| == |ls| && r[|ls| - 1] == ls[|ls| - 1]
  {
    if k in ls[|ls| - 1] then ls else Fetch(db, ls, |ls| - 1, k)
  }

  lemma FilledKeeps(db: Database, ls: seq<Cache>, k: Key)
    requires 0 < |ls| && Inv(db, ls)
    ensures Inv(db, Filled(db, ls, k))
    ensures forall m: nat, j: Key :: m <= |ls| ==> Raw(db, Filled(db, ls, k), m, j) == Raw(db, ls, m, j)
  {
    ReadKeeps(db, ls, |ls| - 1, k);
  }

  /** What an opened entry's flags promise. */
  lemma OpenedOk(db: Database, ls: seq<Cache>, k: Key)
    requires 0 < |ls| && Inv(db, ls)
    ensures var e, lower := Opened(db, ls, k), Filled(db, ls, k);
      && e.isDirty
      && (e.isFresh ==> Visible(db, ls, |ls| - 1, k) == None)
      && (!e.isFresh && |ls| > 1 ==> k in lower[|ls| - 2])
  {
    var n := |ls|;
    if k in ls[n - 1] {
      assert EntryOk(db, ls, n - 1, k);
    } else if n > 1 {
      FetchKeepsOk(db, ls, n - 1, k, 0, k);
    }
  }

  /** A modifier sees the visible record, or a pruned one when there is none. */
  lemma OpenedShowsVisible(db: Database, ls: seq<Cache>, k: Key)
    requires 0 < |ls|
    ensures Unspent(Some(Opened(db, ls, k).coins)) == Visible(db, ls, |ls|, k)
  {
  }

  /** Replacing the topmost cache by one whose entries are in order. */
  lemma ReplaceTop(db: Database, ls: seq<Cache>, top: Cache)
    requires 0 < |ls| && Inv(db, ls)
    requires forall k: Key :: k in top ==> GoodEntry(db, ls, |ls| - 1, k, top[k])
    ensures Inv(db, ls[|ls| - 1 := top])
    ensures forall m: nat, k: Key :: m < |ls| ==> Raw(db, ls[|ls| - 1 := top], m, k) == Raw(db, ls, m, k)
  {
    var ls' := ls[|ls| - 1 := top];
    forall m: nat, k: Key | m < |ls| ensures Raw(db, ls', m, k) == Raw(db, ls, m, k) {
      RawReplace(db, ls, |ls| - 1, top, m, k);
    }
    forall i: nat, k: Key | i < |ls| ensures EntryOk(db, ls', i, k) {
      assert EntryOk(db, ls, i, k);
    }
  }

  /** What the top shows for the key once the modifier is gone. */
  lemma EndModifyShows(db: Database, ls: seq<Cache>, k: Key, c: Coins)
    requires 0 < |ls| && Inv(db, ls)
    ensures var top := Modify(db, ls, k, c)[|ls| - 1];
      && (forall j: Key :: j != k ==> Held(top, j) == Held(ls[|ls| - 1], j))
      && (Held(top, k) == Some(Opened(db, ls, k).(coins := Cleanup(c)))
          || (Held(top, k) == None && Pruned(c) && Visible(db, ls, |ls| - 1, k) == None))
  {
    OpenedOk(db, ls, k);
    CleanupKeeps(c);
  }

  /** A modifier changes the top level's map at its key and nowhere else, and no lower level. */
  lemma ModifyKeeps(db: Database, ls: seq<Cache>, k: Key, c: Coins)
    requires 0 < |ls| && Inv(db, ls)
    ensures Inv(db, Modify(db, ls, k, c))
    ensures forall m: nat, j: Key :: m <= |ls| ==>
      Visible(db, Modify(db, ls, k, c), m, j)
        == if m == |ls| && j == k then Unspent(Some(Cleanup(c))) else Visible(db, ls, m, j)
  {
    hide Cleanup, Clean, Pruned, Inv, Opened;
    var n := |ls|;
    var lower, ls' := Filled(db, ls, k), Modify(db, ls, k, c);
    FilledKeeps(db, ls, k);
    OpenedOk(db, ls, k);
    EndModifyShows(db, ls, k, c);
    CleanupKeeps(c);
    var i, top := n - 1, ls'[n - 1];
    forall j: Key | j in top ensures GoodEntry(db, lower, i, j, top[j]) {
      InvEntry(db, lower, i, j);
      assert Held(top, j) == Some(top[j]);
    }
    assert ls' == lower[i := top];
    ReplaceTop(db, lower, top);
    forall m: nat, j: Key | m <= n
      ensures Visible(db, ls', m, j) == if m == n && j == k then Unspent(Some(Cleanup(c))) else Visible(db, ls, m, j)
    {
      if m == n {
        assert Raw(db, ls', i, j) == Raw(db, ls, i, j);
        assert Held(top, j) == None || Held(top, j) == Some(top[j]);
      }
    }
  }

  lemma InvEntry(db: Database, ls: seq<Cache>, i: nat, k: Key)
    requires Inv(db, ls) && i < |ls|
    ensures EntryOk(db, ls, i, k)
  {
  }

  // ---------- Flushing ----------

  lemma MergeHeld(child: Cache, own: Cache, k: Key)
    ensures Held(MergeAll(child, own), k) == MergedEntry(child, own, k)
  {
  }

  lemma WriteHeld(child: Cache, db: Database, k: Key)
    ensures Held(WriteAll(child, db), k) == WrittenRecord(child, db, k)
  {
  }

  /** The FRESH assert of BatchWrite never fires, for any entry of the cache that is flushed. */
  lemma FlushAssertHolds(db: Database, ls: seq<Cache>, k: Key)
    requires 1 < |ls| && Inv(db, ls) && k in ls[|ls| - 1]
    ensures MergeAsserts(ls[|ls| - 1][k], Held(ls[|ls| - 2], k))
  {
    InvEntry(db, ls, |ls| - 1, k);
  }

  /** One key of a flush into the cache below: what that cache then shows, and its entry. */
  lemma MergeShows(db: Database, ls: seq<Cache>, k: Key)
    requires 1 < |ls| && Inv(db, ls)
    ensures var n := |ls| - 2;
      var e := MergedEntry(ls[n + 1], ls[n], k);
      && Unspent(if e.Some? then Some(e.value.coins) else Raw(db, ls, n, k)) == Visible(db, ls, n + 2, k)
      && (e.Some? ==> GoodEntry(db, ls, n, k, e.value))
  {
    hide Clean, Pruned, Inv;
    InvEntry(db, ls, |ls| - 1, k);
    InvEntry(db, ls, |ls| - 2, k);
    var n := |ls| - 2;
    assert k !in ls[n] ==> Raw(db, ls, n + 1, k) == Raw(db, ls, n, k);
    assert k !in ls[n + 1] ==> Raw(db, ls, n + 2, k) == Raw(db, ls, n + 1, k);
  }

  /** Flushing makes the level below show what the flushed level showed, changes no level further
      down, and keeps the invariant. */
  lemma FlushKeeps(db: Database, ls: seq<Cache>)
    requires 0 < |ls| && Inv(db, ls)
    ensures var (db', ls') := Flush(db, ls);
      && Inv(db', ls')
      && (forall k: Key :: Visible(db', ls', |ls|, k) == Visible(db, ls, |ls|, k))
      && (forall k: Key :: Visible(db', ls', |ls| - 1, k) == Visible(db, ls, |ls|, k))
      && (forall m: nat, k: Key :: m < |ls| - 1 ==> Visible(db', ls', m, k) == Visible(db, ls, m, k))
  {
    if |ls| == 1 {
      FlushToDatabase(db, ls);
    } else {
      FlushToCache(db, ls);
    }
  }

  lemma FlushToDatabase(db: Database, ls: seq<Cache>)
    requires |ls| == 1 && Inv(db, ls)
    ensures var (db', ls') := Flush(db, ls);
      && Inv(db', ls')
      && (forall k: Key :: Visible(db', ls', 1, k) == Visible(db, ls, 1, k))
      && (forall k: Key :: Visible(db', ls', 0, k) == Visible(db, ls, 1, k))
  {
    hide Clean, Pruned;
    var (db', ls') := Flush(db, ls);
    forall k: Key
      ensures Visible(db', ls', 0, k) == Visible(db', ls', 1, k) == Visible(db, ls, 1, k)
      ensures k in db' ==> Clean(db'[k])
    {
      WriteHeld(ls[0], db, k);
      InvEntry(db, ls, 0, k);
      assert k in db ==> Clean(db[k]);
      assert Raw(db', ls', 0, k) == Held(db', k) && Raw(db, ls, 0, k) == Held(db, k);
      assert k !in ls[0] ==> Raw(db, ls, 1, k) == Raw(db, ls, 0, k);
      assert k !in ls'[0];
    }
  }

  lemma FlushToCache(db: Database, ls: seq<Cache>)
    requires |ls| > 1 && Inv(db, ls)
    ensures var (db', ls') := Flush(db, ls);
      && Inv(db', ls')
      && (forall k: Key :: Visible(db', ls', |ls|, k) == Visible(db, ls, |ls|, k))
      && (forall k: Key :: Visible(db', ls', |ls| - 1, k) == Visible(db, ls, |ls|, k))
      && (forall m: nat, k: Key :: m < |ls| - 1 ==> Visible(db', ls', m, k) == Visible(db, ls, m, k))
  {
    hide Clean, Pruned, MergedEntry, MergeAll;
    var n := |ls| - 2;
    var ls' := Flush(db, ls).1;
    forall m: nat, k: Key | m <= n ensures Raw(db, ls', m, k) == Raw(db, ls, m, k) {
      var merged := MergeAll(ls[n + 1], ls[n]);
      RawReplace(db, ls, n, merged, m, k);
      RawReplace(db, ls[n := merged], n + 1, map[], m, k);
    }
    var top, low := n + 2, n + 1;
    forall k: Key ensures Visible(db, ls', top, k) == Visible(db, ls', low, k) == Visible(db, ls, top, k) {
      MergeHeld(ls[n + 1], ls[n], k);
      MergeShows(db, ls, k);
      assert k !in ls'[n + 1];
      assert Raw(db, ls', n, k) == Raw(db, ls, n, k);
    }
    forall i: nat, k: Key | i < |ls'| ensures EntryOk(db, ls', i, k) {
      InvEntry(db, ls, i, k);
      MergeHeld(ls[n + 1], ls[n], k);
      MergeShows(db, ls, k);
      if i <= n {
        assert Raw(db, ls', i, k) == Raw(db, ls, i, k);
      }
    }
  }
}
