/** The views as linked objects: CCoinsViewCache in src/coins.cpp on CCoinsViewDB in src/txdb.cpp.
    Every method is proved to take the stack of caches where the function of `CoinsCache` or
    `CoinsRuns` says. */
module CoinsView {
  import opened Basics
  import opened VarInt
  import opened Coins
  import opened CoinsCache
  import opened CoinsRuns

  lemma SameHeld<V>(a: map<Key, V>, b: map<Key, V>)
    requires forall k :: Held(a, k) == Held(b, k)
    ensures a == b
  {
    forall k ensures (k in a <==> k in b) && (k in a ==> a[k] == b[k]) {
      assert Held(a, k) == Held(b, k);
    }
  }

  class CoinsViewDB {
    var coins: Database
    var best: int

    constructor ()
      ensures coins == map[] && best == 0
    {
      coins, best := map[], 0;
    }

    /** BatchWrite: the entries are taken one by one in any order. */
    method BatchWrite(child: Cache, hash: int)
      modifies this
      ensures coins == WriteAll(child, old(coins))
      ensures best == if hash != 0 then hash else old(best)
    {
      ghost var db := coins;
      var left := child.Keys;
      while left != {}
        invariant left <= child.Keys
        invariant best == old(best)
        invariant forall k {:trigger Held(coins, k)} ::
          Held(coins, k) == if k in child.Keys - left then WrittenRecord(child, db, k) else Held(db, k)
      {
        var k: Key :| k in left;
        WriteEntry(child, k, db);
        left := left - {k};
      }
      if hash != 0 {
        best := hash;
      }
      forall k ensures Held(coins, k) == Held(WriteAll(child, db), k) {
        WriteHeld(child, db, k);
        NotInChild(child, db, k);
      }
      SameHeld(coins, WriteAll(child, db));
    }

    static lemma NotInChild(child: Cache, db: Database, k: Key)
      ensures k !in child ==> WrittenRecord(child, db, k) == Held(db, k)
    {
    }

    method WriteEntry(child: Cache, k: Key, ghost db: Database)
      requires k in child && Held(coins, k) == Held(db, k)
      modifies this`coins
      ensures forall j :: Held(coins, j) == if j == k then WrittenRecord(child, db, k) else Held(old(coins), j)
    {
      var e := child[k];
      if e.isDirty {
        coins := if Pruned(e.coins) then coins - {k} else coins[k := e.coins];
      }
    }
  }

  /** A cache on another view. chain lists the caches from the one on the database up to this one. */
  class CoinsViewCache {
    const db: CoinsViewDB
    const base: CoinsViewCache?
    ghost const chain: seq<CoinsViewCache>
    ghost const level: nat
    var cache: Cache
    var best: int
    var hasModifier: bool

    /** The links, which never change. */
    ghost predicate Valid() {
      && |chain| == level + 1 && chain[level] == this && chain[0].base == null
      && (forall i :: 0 <= i <= level ==> chain[i].level == i && chain[i].chain == chain[..i + 1] && chain[i].db == db)
      && forall i :: 0 < i <= level ==> chain[i].base == chain[i - 1]
    }

    ghost function Layers(): (r: seq<Cache>)
      reads chain
      ensures |r| == |chain|
    {
      seq(|chain|, i requires 0 <= i < |chain| reads chain => chain[i].cache)
    }

    ghost function Bests(): (r: seq<int>)
      reads chain
      ensures |r| == |chain|
    {
      seq(|chain|, i requires 0 <= i < |chain| reads chain => chain[i].best)
    }

    lemma BaseValid()
      requires Valid() && base != null
      ensures base.Valid() && base.db == db && base.chain == chain[..level] && base.level == level - 1
      ensures this !in base.chain && forall o :: o in base.chain ==> o in chain
      ensures Layers() == base.Layers() + [cache] && Bests() == base.Bests() + [best]
    {
      assert base == chain[level - 1];
      forall i | 0 <= i < level ensures base.chain[i] == chain[i] && base.chain[..i + 1] == chain[..i + 1] {
      }
    }

    lemma InChain()
      requires Valid()
      ensures this in chain && |chain| == level + 1 && (base == null <==> level == 0)
      ensures cache == Layers()[level] && best == Bests()[level]
    {
      if level > 0 {
        assert chain[level].base == chain[level - 1];
      }
    }

    /** The only statement that changes a cache. */
    method SetCache(c: Cache)
      requires Valid()
      modifies this`cache
      ensures cache == c
      ensures Layers() == old(Layers())[level := c] && Bests() == old(Bests())
    {
      cache := c;
    }

    constructor (database: CoinsViewDB, below: CoinsViewCache?)
      requires below != null ==> below.Valid() && below.db == database
      ensures Valid() && db == database && base == below
      ensures chain == (if below == null then [] else below.chain) + [this]
      ensures cache == map[] && best == 0 && !hasModifier
    {
      db := database;
      base := below;
      chain := (if below == null then [] else below.chain) + [this];
      level := if below == null then 0 else below.level + 1;
      cache, best, hasModifier := map[], 0, false;
      new;
      forall i | 0 <= i < level ensures chain[i] == below.chain[i] && chain[..i + 1] == below.chain[..i + 1] {
      }
      assert chain[..level + 1] == chain;
    }

    /** FetchCoins; None for the end iterator. */
    method FetchCoins(k: Key) returns (found: Option<Coins>)
      requires Valid()
      modifies set o | o in chain :: o`cache
      ensures Layers() == Fetch(db.coins, old(Layers()), |chain|, k)
      ensures found == Raw(db.coins, old(Layers()), |chain|, k)
      decreases |chain|, 1
    {
      hide Valid, Pruned;
      InChain();
      if k in cache {
        return Some(cache[k].coins);
      }
      var tmp := BaseGetCoins(k);
      if tmp.None? {
        return None;
      }
      SetCache(cache[k := Entry(tmp.value, false, Pruned(tmp.value))]);
      return tmp;
    }

    /** base->GetCoins. */
    method BaseGetCoins(k: Key) returns (found: Option<Coins>)
      requires Valid()
      modifies set o | o in chain :: o`cache
      ensures Layers() == Fetch(db.coins, old(Layers()), level, k)
      ensures found == Raw(db.coins, old(Layers()), level, k)
      decreases |chain|, 0
    {
      hide Valid, Raw, Fetch;
      InChain();
      ghost var before := Layers();
      FetchBottom(db.coins, before, k);
      if base == null {
        return if k in db.coins then Some(db.coins[k]) else None;
      }
      BaseValid();
      found := base.FetchCoins(k);
      BaseValid();
      FetchPrefix(db.coins, before, level, level, k);
      assert before[..level] == old(base.Layers());
    }

    method HaveCoins(k: Key) returns (have: bool)
      requires Valid()
      modifies set o | o in chain :: o`cache
      ensures Layers() == Fetch(db.coins, old(Layers()), |chain|, k)
      ensures have == CoinsRuns.HaveCoins(db.coins, old(Layers()), |chain|, k)
    {
      var c := FetchCoins(k);
      return c.Some? && c.value.outs != [];
    }

    /** ModifyCoins and the constructor of the modifier. */
    method ModifyCoins(k: Key)
      requires Valid() && !hasModifier
      modifies set o | o in chain :: o`cache
      modifies `hasModifier
      ensures Layers() == BeginModify(db.coins, old(Layers()), k)
      ensures hasModifier && k in cache && cache[k] == Opened(db.coins, old(Layers()), k)
    {
      hide Valid, Pruned, Fetch;
      InChain();
      var entry: CacheEntry<Coins>;
      if k !in cache {
        var coins := BaseGetCoins(k);
        if coins.None? {
          entry := Entry(Empty(), false, true);
        } else {
          entry := Entry(coins.value, false, Pruned(coins.value));
        }
      } else {
        entry := cache[k];
      }
      InChain();
      SetCache(cache[k := entry.(isDirty := true)]);
      ghost var done := Layers();
      hasModifier := true;
      assert Layers() == done;
    }

    /** A write through the modifier and its destructor. */
    method EndModify(k: Key, c: Coins)
      requires Valid() && hasModifier && k in cache
      modifies `cache, `hasModifier
      ensures Layers() == old(Layers())[level := CoinsCache.EndModify(old(cache), k, c)]
      ensures !hasModifier
    {
      hide Valid, Pruned, Trim;
      InChain();
      hasModifier := false;
      assert Layers() == old(Layers());
      var entry := cache[k].(coins := Cleanup(c));
      if entry.isFresh && Pruned(entry.coins) {
        SetCache(cache - {k});
      } else {
        SetCache(cache[k := entry]);
      }
    }

    /** A whole modification. */
    method Update(k: Key, c: Coins)
      requires Valid() && !hasModifier
      modifies set o | o in chain :: o`cache
      modifies `hasModifier
      ensures Layers() == Modify(db.coins, old(Layers()), k, c)
      ensures !hasModifier
    {
      hide Valid, CoinsCache.EndModify, BeginModify;
      ModifyCoins(k);
      InChain();
      EndModify(k, c);
    }

    method GetBestBlock() returns (hash: int)
      requires Valid()
      modifies set o | o in chain :: o`best
      ensures Bests() == AskBest(db.best, old(Bests()), |chain|)
      ensures hash == Best(db.best, old(Bests()), |chain|)
      decreases |chain|
    {
      hide Valid, Best, AskBest;
      InChain();
      ghost var before := Bests();
      AskStep(db.best, before);
      if best != 0 {
        return best;
      }
      if base == null {
        hash := db.best;
      } else {
        BaseValid();
        hash := base.GetBestBlock();
        BaseValid();
        AskPrefix(db.best, before, level, level);
        assert before[..level] == old(base.Bests());
      }
      SetBest(hash);
    }

    method SetBest(hash: int)
      requires Valid()
      modifies `best
      ensures best == hash && Bests() == old(Bests())[level := hash]
    {
      best := hash;
    }

    /** BatchWrite into this cache. */
    method BatchWrite(child: Cache, hash: int)
      requires Valid() && !hasModifier
      requires forall k :: k in child ==> MergeAsserts(child[k], Held(cache, k))
      modifies `cache, `best
      ensures cache == MergeAll(child, old(cache)) && best == hash
      ensures Layers() == old(Layers())[level := cache] && Bests() == old(Bests())[level := best]
    {
      hide MergeAsserts, MergeAll, Held;
      ghost var layers, bests := Layers(), Bests();
      WriteEntries(child);
      best := hash;
      forall i | 0 <= i < level ensures Layers()[i] == layers[i] && Bests()[i] == bests[i] {
        assert chain[i].level == i;
      }
      assert Layers()[level] == cache && Bests()[level] == best;
    }

    /** The loop of BatchWrite: the entries are taken one by one in any order. */
    method WriteEntries(child: Cache)
      requires forall k :: k in child ==> MergeAsserts(child[k], Held(cache, k))
      modifies `cache
      ensures cache == MergeAll(child, old(cache))
    {
      hide Held, MergedEntry, MergeAsserts;
      ghost var own := cache;
      var left := child.Keys;
      while left != {}
        invariant left <= child.Keys
        invariant forall k {:trigger Held(cache, k)} ::
          Held(cache, k) == if k in child.Keys - left then MergedEntry(child, own, k) else Held(own, k)
      {
        var k :| k in left;
        WriteEntry(child, k, own);
        left := left - {k};
      }
      forall k ensures Held(cache, k) == Held(MergeAll(child, own), k) {
        MergeHeld(child, own, k);
        NotInChild(child, own, k);
      }
      SameHeld(cache, MergeAll(child, own));
    }

    static lemma NotInChild(child: Cache, own: Cache, k: Key)
      ensures k !in child ==> MergedEntry(child, own, k) == Held(own, k)
    {
    }

    method WriteEntry(child: Cache, k: Key, ghost own: Cache)
      requires k in child && Held(cache, k) == Held(own, k) && MergeAsserts(child[k], Held(own, k))
      modifies `cache
      ensures forall j :: Held(cache, j) == if j == k then MergedEntry(child, own, k) else Held(old(cache), j)
    {
      hide Pruned;
      var it := child[k];
      if it.isDirty {
        if k !in cache {
          if !Pruned(it.coins) {
            assert it.isFresh;
            cache := cache[k := Entry(it.coins, true, true)];
          }
        } else if cache[k].isFresh && Pruned(it.coins) {
          cache := cache - {k};
        } else {
          cache := cache[k := Entry(it.coins, true, cache[k].isFresh)];
        }
      }
    }

    /** Flush into the cache below or the database. */
    method Flush()
      requires Valid() && Inv(db.coins, Layers()) && (base != null ==> !base.hasModifier)
      modifies db, `cache
      modifies if base == null then {} else {base}
      ensures (db.coins, Layers()) == CoinsCache.Flush(old(db.coins), old(Layers()))
      ensures (db.best, Bests()) == FlushBest(old(db.best), old(Bests()))
    {
      hide Valid, MergeAll, WriteAll, Inv;
      InChain();
      if base == null {
        db.BatchWrite(cache, best);
        assert Layers() == old(Layers()) && Bests() == old(Bests());
      } else {
        FlushDown();
      }
      SetCache(map[]);
      assert base == null ==> Layers() == [map[]];
    }

    /** base->BatchWrite when the base is a cache. */
    method FlushDown()
      requires Valid() && Inv(db.coins, Layers()) && base != null && !base.hasModifier
      modifies base
      ensures Layers() == old(Layers())[level - 1 := MergeAll(cache, old(Layers())[level - 1])]
      ensures Bests() == old(Bests())[level - 1 := best]
      ensures cache == old(cache) && best == old(best)
    {
      hide Valid, MergeAll, Inv, MergeAsserts;
      ghost var before := Layers();
      BaseValid();
      base.InChain();
      forall k | k in cache ensures MergeAsserts(cache[k], Held(base.cache, k)) {
        FlushAssertHolds(db.coins, before, k);
      }
      base.BatchWrite(cache, best);
      BaseValid();
    }
  }

  lemma AskStep(dbBest: int, bs: seq<int>)
    requires 0 < |bs|
    ensures var n := |bs|;
      && AskBest(dbBest, bs, n) == (if bs[n - 1] != 0 then bs else AskBest(dbBest, bs, n - 1)[n - 1 := Best(dbBest, bs, n - 1)])
      && Best(dbBest, bs, n) == (if bs[n - 1] != 0 then bs[n - 1] else Best(dbBest, bs, n - 1))
      && AskBest(dbBest, bs, 0) == bs && Best(dbBest, bs, 0) == dbBest
  {
  }

  lemma {:induction false} AskPrefix(dbBest: int, bs: seq<int>, m: nat, n: nat)
    requires n <= m <= |bs|
    ensures AskBest(dbBest, bs[..m], n) == AskBest(dbBest, bs, n)[..m]
    ensures Best(dbBest, bs[..m], n) == Best(dbBest, bs, n)
    ensures forall i :: n <= i < |bs| ==> AskBest(dbBest, bs, n)[i] == bs[i]
    decreases n
  {
    if n > 0 {
      AskPrefix(dbBest, bs, m, n - 1);
    }
  }

  lemma FetchBottom(db: Database, ls: seq<Cache>, k: Key)
    ensures Fetch(db, ls, 0, k) == ls && Raw(db, ls, 0, k) == Held(db, k)
  {
  }

  /** What is fetched at level n only depends on the caches up to it. */
  lemma {:induction false} FetchPrefix(db: Database, ls: seq<Cache>, m: nat, n: nat, k: Key)
    requires n <= m <= |ls|
    ensures Fetch(db, ls[..m], n, k) == Fetch(db, ls, n, k)[..m]
    ensures Raw(db, ls[..m], n, k) == Raw(db, ls, n, k)
    decreases n
  {
    RawFrame(db, ls, ls[..m], n, k);
    if n > 0 {
      FetchPrefix(db, ls, m, n - 1, k);
    }
  }
}
