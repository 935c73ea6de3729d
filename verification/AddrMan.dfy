/** The address manager as an object: src/addrman.cpp.
    Each method is proved to take the abstract state where the function of the same name
    in AddrState, AddrOps or AddrAdd says, for every outcome of the random draws
    and every value of the clock. */
module AddrMan {
  import opened Basics
  import opened AddrState
  import opened AddrMoves
  import opened AddrOps
  import opened AddrAdd

  /** A two-dimensional table of ids in which -1 marks a free cell; `table` is its content as a map. */
  class BucketTable {
    const cells: array2<int>
    ghost var table: Table

    ghost predicate Valid()
      reads this, cells
    {
      && cells.Length1 == BUCKET_SIZE
      && (forall sl :: sl in table ==> sl.bucket < cells.Length0 && sl.pos < BUCKET_SIZE)
      && (forall b: nat, p: nat :: b < cells.Length0 && p < BUCKET_SIZE ==>
            cells[b, p] == if Slot(b, p) in table then table[Slot(b, p)] else -1)
    }

    constructor (buckets: nat)
      ensures Valid() && fresh(cells) && cells.Length0 == buckets && table == map[]
    {
      cells := new int[buckets, BUCKET_SIZE]((i, j) => -1);
      table := map[];
    }

    method Get(b: nat, p: nat) returns (v: int)
      requires Valid() && b < cells.Length0 && p < BUCKET_SIZE
      ensures v == if Slot(b, p) in table then table[Slot(b, p)] else -1
    {
      v := cells[b, p];
    }

    method Set(b: nat, p: nat, id: nat)
      requires Valid() && b < cells.Length0 && p < BUCKET_SIZE
      modifies this, cells
      ensures Valid() && table == old(table)[Slot(b, p) := id]
    {
      cells[b, p] := id;
      table := table[Slot(b, p) := id];
    }

    method Free(b: nat, p: nat)
      requires Valid() && b < cells.Length0 && p < BUCKET_SIZE
      modifies this, cells
      ensures Valid() && table == old(table) - {Slot(b, p)}
    {
      cells[b, p] := -1;
      table := table - {Slot(b, p)};
    }
  }

  lemma WeakIsIndexedIn(env: Env, s: State, limbo: set<nat>)
    requires Weak(env, s, limbo)
    ensures RandomOk(s.info.Keys, s.pos, s.random)
  {
    hide RandomOk, AddrOk, NewOk, TriedOk, CountsOk;
  }

  // ---------- The loops of MakeTried and Good_ over the new buckets ----------

  /** The table without the slots of entry id in the first n buckets. */
  ghost function Without(table: Table, id: nat, n: nat): Table {
    map sl | sl in table && !(table[sl] == id && sl.bucket < n) :: table[sl]
  }

  /** Entry id sits in a bucket only at its hashed position. */
  ghost predicate AtHashed(env: Env, key: nat, service: Service, table: Table, id: nat) {
    forall sl :: sl in table && table[sl] == id ==> sl.bucket < NEW_BUCKET_COUNT && sl.pos == env.position(key, service, true, sl.bucket)
  }

  lemma WithoutStep(env: Env, key: nat, service: Service, table: Table, id: nat, n: nat)
    requires AtHashed(env, key, service, table, id)
    ensures var slot := Slot(n, env.position(key, service, true, n));
            && (slot in Without(table, id, n) && Without(table, id, n)[slot] == id ==>
                  && Without(table, id, n + 1) == Without(table, id, n) - {slot}
                  && |SlotsOf(Without(table, id, n + 1), id)| == |SlotsOf(Without(table, id, n), id)| - 1)
            && (!(slot in Without(table, id, n) && Without(table, id, n)[slot] == id) ==>
                  Without(table, id, n + 1) == Without(table, id, n))
  {
    var slot := Slot(n, env.position(key, service, true, n));
    var a, b := Without(table, id, n), Without(table, id, n + 1);
    if slot in a && a[slot] == id {
      assert b == a - {slot};
      assert SlotsOf(b, id) == SlotsOf(a, id) - {slot};
      assert slot in SlotsOf(a, id);
    } else {
      assert b == a;
    }
  }

  lemma WithoutEnds(env: Env, key: nat, service: Service, table: Table, id: nat)
    requires AtHashed(env, key, service, table, id)
    ensures Without(table, id, 0) == table
    ensures Without(table, id, NEW_BUCKET_COUNT) == map sl | sl in table && table[sl] != id :: table[sl]
    ensures SlotsOf(Without(table, id, NEW_BUCKET_COUNT), id) == {}
  {
  }

  lemma EntryAtHashed(env: Env, s: State, limbo: set<nat>, id: nat)
    requires Weak(env, s, limbo) && id in s.info
    ensures AtHashed(env, s.key, s.info[id].service, s.newTable, id) && s.info[id].refCount == |SlotsOf(s.newTable, id)|
  {
    hide RandomOk, AddrOk, TriedOk, CountsOk;
  }

  /** A referenced untried entry sits in some bucket, so the search in Good_ cannot come up empty. */
  lemma SearchSucceeds(env: Env, s: State, id: nat, start: nat)
    requires Sound(env, s) && id in s.info && !s.info[id].inTried
    ensures exists n: nat :: n < NEW_BUCKET_COUNT && HeldInRound(env, s, id, start, n)
  {
    hide Weak, RandomOk;
    EntryAtHashed(env, s, {}, id);
    assert s.info[id].refCount > 0;
    var sl :| sl in SlotsOf(s.newTable, id);
    var n := (sl.bucket - start) % NEW_BUCKET_COUNT;
    RotateBack(sl.bucket, start);
    assert HeldInRound(env, s, id, start, n);
  }

  lemma RotateBack(b: nat, start: nat)
    requires b < NEW_BUCKET_COUNT
    ensures ((b - start) % NEW_BUCKET_COUNT + start) % NEW_BUCKET_COUNT == b
  {
  }

  /** Does entry id sit in this bucket of the new table? */
  ghost predicate HeldIn(env: Env, s: State, id: nat, bucket: nat)
    requires id in s.info
  {
    var slot := Slot(bucket, env.position(s.key, s.info[id].service, true, bucket));
    slot in s.newTable && s.newTable[slot] == id
  }

  /** Does round n of the search in Good_ find entry id? */
  ghost predicate HeldInRound(env: Env, s: State, id: nat, start: nat, n: nat)
    requires id in s.info
  {
    HeldIn(env, s, id, (n + start) % NEW_BUCKET_COUNT)
  }

  lemma PutTwice<K, V>(m: map<K, V>, k: K, a: V, b: V)
    requires k in m
    ensures m[k := a][k := b] == m[k := b] && m[k := m[k]] == m
  {
  }

  class AddrMan {
    const env: Env
    var key: nat
    var idCount: nat
    var info: map<nat, Info>
    var pos: map<nat, nat>
    var addr: map<NetAddr, nat>
    var random: seq<nat>
    var triedCount: int
    var newCount: int
    const vvTried: BucketTable
    const vvNew: BucketTable

    ghost predicate Shape()
      reads this, vvTried, vvNew, vvTried.cells, vvNew.cells
    {
      && vvTried != vvNew && vvTried.cells != vvNew.cells
      && vvTried.Valid() && vvTried.cells.Length0 == TRIED_BUCKET_COUNT
      && vvNew.Valid() && vvNew.cells.Length0 == NEW_BUCKET_COUNT
    }

    ghost function Model(): State
      reads this, vvTried, vvNew
    {
      Fields(key, idCount, info, pos, addr, random, triedCount, newCount, vvTried.table, vvNew.table)
    }

    /** A new manager: empty tables and a random key. */
    constructor (env: Env, key: nat)
      requires key != 0
      ensures Shape() && fresh(vvTried) && fresh(vvNew) && fresh(vvTried.cells) && fresh(vvNew.cells)
      ensures Model() == Empty(key) && this.env == env && Inv(env, Model())
    {
      hide Inv;
      this.env, this.key := env, key;
      idCount, info, pos, addr, random, triedCount, newCount := 0, map[], map[], map[], [], 0, 0;
      vvTried := new BucketTable(TRIED_BUCKET_COUNT);
      vvNew := new BucketTable(NEW_BUCKET_COUNT);
      new;
      EmptyInv(env, key);
    }

    method SwapRandom(p1: nat, p2: nat)
      requires Shape() && p1 < |random| && p2 < |random| && RandomOk(info.Keys, pos, random)
      modifies this
      ensures Shape() && Model() == AddrState.SwapRandom(old(Model()), p1, p2)
    {
      if p1 == p2 { return; }
      var id1, id2 := random[p1], random[p2];
      assert id1 in info && id2 in info;
      pos := pos[id1 := p2][id2 := p1];
      random := random[p1 := id2][p2 := id1];
    }

    method Create(a: Address, source: NetAddr) returns (id: nat)
      requires Shape()
      modifies this
      ensures Shape() && id == old(idCount) && Model() == AddrState.Create(old(Model()), a, source)
    {
      id := idCount;
      idCount := idCount + 1;
      info := info[id := Info(a.service, a.services, a.time, 0, source, 0, 0, 0, false)];
      addr := addr[a.service.addr := id];
      pos := pos[id := |random|];
      random := random + [id];
    }

    method Delete(id: nat)
      requires Shape() && RandomOk(info.Keys, pos, random) && id in info
      requires !info[id].inTried && info[id].refCount == 0
      modifies this
      ensures Shape() && id in old(Model()).pos && old(Model()).pos[id] < |old(Model()).random|
      ensures Model() == AddrState.Delete(old(Model()), id)
    {
      hide RandomOk;
      IsIndexed(info.Keys, pos, random, id);
      SwapRandom(pos[id], |random| - 1);
      random := random[..|random| - 1];
      addr := addr - {info[id].service.addr};
      info := info - {id};
      pos := pos - {id};
      newCount := newCount - 1;
    }

    method ClearNew(bucket: nat, at: nat, ghost limbo: set<nat>)
      requires Shape() && Weak(env, Model(), limbo) && bucket < NEW_BUCKET_COUNT && at < BUCKET_SIZE
      modifies this, vvNew, vvNew.cells
      ensures Shape()
      ensures Slot(bucket, at) in old(Model()).newTable ==>
                var id := old(Model()).newTable[Slot(bucket, at)];
                id in old(Model()).info && id in old(Model()).pos && old(Model()).pos[id] < |old(Model()).random|
      ensures Model() == AddrState.ClearNew(old(Model()), Slot(bucket, at)) && Weak(env, Model(), limbo)
    {
      hide Weak, RandomOk;
      ghost var s, slot := Model(), Slot(bucket, at);
      ClearNewKeeps(env, s, slot, limbo);
      var held := vvNew.Get(bucket, at);
      if held != -1 {
        VacateKeeps(env, s, slot, limbo);
        var id: nat := held;
        assert info[id].refCount > 0;
        info := info[id := info[id].(refCount := info[id].refCount - 1)];
        vvNew.Free(bucket, at);
        assert Model() == Vacate(s, slot);
        if info[id].refCount == 0 {
          WeakIsIndexedIn(env, Model(), limbo);
          Delete(id);
        }
      }
    }

    /** One round of the loop that opens MakeTried: removes the entry from one new bucket. */
    method LeaveNewBucket(id: nat, bucket: nat)
      requires Shape() && id in info && bucket < NEW_BUCKET_COUNT
      modifies this, vvNew, vvNew.cells
      ensures Shape()
      ensures var slot := Slot(bucket, old(env.position(key, info[id].service, true, bucket)));
              Model() == if slot in old(vvNew.table) && old(vvNew.table)[slot] == id then Vacate(old(Model()), slot) else old(Model())
    {
      var at := env.position(key, info[id].service, true, bucket);
      var held := vvNew.Get(bucket, at);
      if held == id {
        vvNew.Free(bucket, at);
        info := info[id := info[id].(refCount := info[id].refCount - 1)];
      }
    }

    /** The first part of MakeTried: removes the entry from all new buckets. */
    method LeaveNewBuckets(id: nat, ghost limbo: set<nat>)
      requires Shape() && Weak(env, Model(), limbo) && id in info
      modifies this, vvNew, vvNew.cells
      ensures Shape() && Model() == TakeOut(old(Model()), id)
    {
      hide Weak, TakeOut, Without, SlotsOf, AtHashed, Leaving, Vacate;
      ghost var s := Model();
      LeavingStart(env, s, limbo, id);
      for bucket := 0 to NEW_BUCKET_COUNT
        invariant Shape() && id in info && Leaving(s, id, bucket, Model())
      {
        LeavingStep(env, s, limbo, id, bucket, Model());
        LeaveNewBucket(id, bucket);
      }
      LeavingEnd(env, s, limbo, id, Model());
      newCount := newCount - 1;
      assert info[id].refCount == 0;
    }

    method LeaveTried(bucket: nat, at: nat) returns (id: nat)
      requires Shape() && bucket < TRIED_BUCKET_COUNT && at < BUCKET_SIZE
      requires Slot(bucket, at) in vvTried.table && vvTried.table[Slot(bucket, at)] in info
      modifies this, vvTried, vvTried.cells
      ensures Shape() && id == old(vvTried.table[Slot(bucket, at)]) && Model() == Untry(old(Model()), Slot(bucket, at))
    {
      var held := vvTried.Get(bucket, at);
      id := held;
      info := info[id := info[id].(inTried := false)];
      vvTried.Free(bucket, at);
      triedCount := triedCount - 1;
    }

    method PutInNew(id: nat, bucket: nat, at: nat)
      requires Shape() && bucket < NEW_BUCKET_COUNT && at < BUCKET_SIZE && id in info
      modifies this, vvNew, vvNew.cells
      ensures Shape() && Model() == PutNew(old(Model()), id, Slot(bucket, at))
    {
      info := info[id := info[id].(refCount := info[id].refCount + 1)];
      vvNew.Set(bucket, at, id);
    }

    method PutInTried(id: nat, bucket: nat, at: nat)
      requires Shape() && bucket < TRIED_BUCKET_COUNT && at < BUCKET_SIZE && id in info
      requires Slot(bucket, at) == TriedSlot(env, key, info[id].service)
      modifies this, vvTried, vvTried.cells
      ensures Shape() && Model() == PutTried(env, old(Model()), id)
    {
      vvTried.Set(bucket, at, id);
      triedCount := triedCount + 1;
      info := info[id := info[id].(inTried := true)];
    }

    /** The end of an eviction: the evicted entry enters the new table again. */
    method Reenter(id: nat, ghost limbo: set<nat>)
      requires Shape() && Weak(env, Model(), limbo) && id in limbo && id in info && info[id].refCount == 0
      requires id in AddrState.ClearNew(Model(), NewSlot(env, key, info[id].service, info[id].source)).info
      requires AddrState.ClearNew(Model(), NewSlot(env, key, info[id].service, info[id].source)).info[id].refCount == 0
      modifies this, vvNew, vvNew.cells
      ensures Shape()
      ensures var s := old(Model());
              var to := NewSlot(env, s.key, s.info[id].service, s.info[id].source);
              var cleared := AddrState.ClearNew(s, to);
              Model() == PutNew(cleared, id, to).(newCount := cleared.newCount + 1)
    {
      hide Weak, AddrState.ClearNew;
      var ubucket := env.newBucket(key, info[id].service, info[id].source);
      var upos := env.position(key, info[id].service, true, ubucket);
      ghost var s := Model();
      ClearNew(ubucket, upos, limbo);
      ClearNewFrame(env, s, Slot(ubucket, upos), limbo);
      assert Slot(ubucket, upos) !in vvNew.table;
      PutInNew(id, ubucket, upos);
      newCount := newCount + 1;
    }

    /** The eviction in MakeTried. */
    method Evict(bucket: nat, at: nat, ghost limbo: set<nat>)
      requires Shape() && Weak(env, Model(), limbo) && bucket < TRIED_BUCKET_COUNT && at < BUCKET_SIZE
      requires Slot(bucket, at) in vvTried.table
      modifies this, vvNew, vvNew.cells, vvTried, vvTried.cells
      ensures Shape() && Model() == AddrOps.Evict(env, old(Model()), Slot(bucket, at), limbo)
    {
      hide Weak, Untry, AddrState.ClearNew, PutNew;
      ghost var s, slot := Model(), Slot(bucket, at);
      EvictSteps(env, s, slot, limbo);
      UntryFields(s, slot);
      var id := LeaveTried(bucket, at);
      Reenter(id, limbo + {id});
    }

    method MakeTried(id: nat)
      requires Shape() && Weak(env, Model(), {}) && id in info && !info[id].inTried
      modifies this, vvNew, vvNew.cells, vvTried, vvTried.cells
      ensures Shape() && Model() == AddrOps.MakeTried(env, old(Model()), id)
    {
      hide Weak, AddrOps.Evict, PutTried;
      ghost var s := Model();
      TakeOutKeeps(env, s, id, {});
      assert {} + {id} == {id};
      LeaveNewBuckets(id, {});
      var kbucket := env.triedBucket(key, info[id].service);
      var kpos := env.position(key, info[id].service, false, kbucket);
      ghost var slot := Slot(kbucket, kpos);
      RoomKeepsId(env, Model(), id, slot);
      var held := vvTried.Get(kbucket, kpos);
      if held != -1 {
        EvictKeeps(env, Model(), slot, {id});
        EvictSparesLimbo(env, Model(), slot, id);
        Evict(kbucket, kpos, {id});
      }
      assert slot !in vvTried.table;
      PutInTried(id, kbucket, kpos);
    }

    /** The search in Good_ for a bucket that holds the entry. It always succeeds. */
    method FindBucket(id: nat, start: nat) returns (found: int)
      requires Shape() && Sound(env, Model()) && id in info && !info[id].inTried
      ensures 0 <= found < NEW_BUCKET_COUNT && HeldIn(env, Model(), id, found)
    {
      hide Sound, HeldInRound;
      found := -1;
      for n := 0 to NEW_BUCKET_COUNT
        invariant found == -1
        invariant forall k: nat :: k < n ==> !HeldInRound(env, Model(), id, start, k)
      {
        var b := (n + start) % NEW_BUCKET_COUNT;
        RoundMeans(env, Model(), id, start, n);
        var held := vvNew.Get(b, env.position(key, info[id].service, true, b));
        if held == id { return b; }
      }
      SearchSucceeds(env, Model(), id, start);
      assert false;
    }

    /** Good_, with its random starting bucket as a parameter. As the search for a bucket always succeeds,
        the early return after it is never taken. */
    method Good(service: Service, time: int, start: nat)
      requires Shape() && Sound(env, Model())
      modifies this, vvNew, vvNew.cells, vvTried, vvTried.cells
      ensures Shape() && Model() == AddrOps.Good(env, old(Model()), service, time)
    {
      hide Weak, AddrOps.MakeTried;
      ghost var s := Model();
      if !(service.addr in addr && addr[service.addr] in info) { return; }
      var id := addr[service.addr];
      if info[id].service != service { return; }
      info := info[id := info[id].(lastSuccess := time, lastTry := time, attempts := 0)];
      RestampKeeps(env, s, id, info[id], {});
      if info[id].inTried { return; }
      var ubucket := FindBucket(id, start);
      if ubucket == -1 {
        assert false;
      }
      MakeTried(id);
    }

    /** The last part of Add_: finds the entry a slot of the new table, or deletes it if it has none. */
    method Place(id: nat, source: NetAddr, now: int)
      requires Shape() && Placeable(env, Model(), id)
      modifies this, vvNew, vvNew.cells
      ensures Shape() && Model() == AddrAdd.Place(env, old(Model()), id, source, now)
    {
      hide Weak, RandomOk, Referenced, IsTerrible, AddrState.ClearNew, AddrState.Delete;
      ghost var s := Model();
      var ubucket := env.newBucket(key, info[id].service, source);
      var upos := env.position(key, info[id].service, true, ubucket);
      PlaceDefined(env, s, id, Slot(ubucket, upos));
      var held := vvNew.Get(ubucket, upos);
      if held != id {
        var insert := held == -1;
        if !insert {
          insert := IsTerrible(info[held], now) || (info[held].refCount > 1 && info[id].refCount == 0);
        }
        if insert {
          ClearNew(ubucket, upos, {});
          PutInNew(id, ubucket, upos);
        } else if info[id].refCount == 0 {
          WeakIsIndexed(env, s);
          Delete(id);
        }
      }
    }

    /** The number Add_ draws below: 2^refCount. */
    method ReferenceFactor(n: nat) returns (factor: nat)
      ensures factor == Pow(2, n)
    {
      factor := 1;
      for k := 0 to n
        invariant factor == Pow(2, k)
      {
        factor := factor * 2;
      }
    }

    method CreateCounted(a: Address, source: NetAddr, penalty: int) returns (id: nat)
      requires Shape()
      modifies this
      ensures Shape() && id == old(idCount) && Model() == Created(old(Model()), a, source, penalty)
    {
      id := Create(a, source);
      info := info[id := info[id].(time := if a.time - penalty > 0 then a.time - penalty else 0)];
      newCount := newCount + 1;
    }

    /** Add_, with the adjusted time and the random draw as parameters. */
    method Add(a: Address, source: NetAddr, penalty: int, now: int, draw: nat) returns (isNew: bool)
      requires Shape() && Sound(env, Model())
      modifies this, vvNew, vvNew.cells
      ensures Shape() && (Model(), isNew) == AddrAdd.Add(env, old(Model()), a, source, penalty, now, draw)
    {
      hide Weak, Referenced, AddrAdd.Place, Refresh, Created;
      ghost var s := Model();
      if !env.routable(a.service.addr) { return false; }
      if a.service.addr in addr && addr[a.service.addr] in info {
        var id := addr[a.service.addr];
        isNew := false;
        KnownPlaceable(env, s, id, Refresh(info[id], a, penalty, now));
        info := info[id := Refresh(info[id], a, penalty, now)];
        if a.time == 0 || (info[id].time != 0 && a.time <= info[id].time) { return; }
        if info[id].inTried { return; }
        if info[id].refCount == NEW_BUCKETS_PER_ADDRESS { return; }
        var factor := ReferenceFactor(info[id].refCount);
        if factor > 1 && draw % factor != 0 { return; }
        Place(id, source, now);
      } else {
        isNew := true;
        CreatedPlaceable(env, s, a, source, penalty);
        var id := CreateCounted(a, source, penalty);
        Place(id, source, now);
      }
    }

    method Attempt(service: Service, time: int)
      requires Shape()
      modifies this
      ensures Shape() && Model() == AddrOps.Attempt(old(Model()), service, time)
    {
      if !(service.addr in addr && addr[service.addr] in info) { return; }
      var id := addr[service.addr];
      if info[id].service != service { return; }
      info := info[id := info[id].(lastTry := time, attempts := info[id].attempts + 1)];
    }

    method Connected(service: Service, time: nat)
      requires Shape()
      modifies this
      ensures Shape() && Model() == AddrOps.Connected(old(Model()), service, time)
    {
      if !(service.addr in addr && addr[service.addr] in info) { return; }
      var id := addr[service.addr];
      if info[id].service != service { return; }
      if time - info[id].time > 20 * 60 {
        info := info[id := info[id].(time := time)];
      }
    }

    /** GetAddr_, returning ids in place of addresses, with the random numbers as a parameter. */
    method GetAddr(draw: nat -> nat, now: int) returns (ids: seq<nat>)
      requires Shape() && Sound(env, Model())
      modifies this
      ensures Shape() && (Model(), ids) == AddrAdd.GetAddr(env, old(Model()), draw, now)
    {
      WeakIsIndexed(env, Model());
      hide Weak, RandomOk, AddrState.SwapRandom, Pick, IsTerrible;
      ghost var s := Model();
      var limit := GETADDR_MAX_PCT * |random| / 100;
      if limit > GETADDR_MAX { limit := GETADDR_MAX; }
      ids := [];
      var n := 0;
      hide Sample, Sampling;
      SamplingStart(s, limit, draw, now);
      while n < |random|
        invariant Shape() && Sampling(s, Model(), n, limit, draw, now, ids)
        decreases |random| - n
      {
        SamplingBounds(s, Model(), n, limit, draw, now, ids);
        if |ids| >= limit { break; }
        SamplingStep(s, Model(), n, limit, draw, now, ids);
        SwapRandom(n, Pick(draw(n), n, |random|));
        assert random[n] in info;
        if !IsTerrible(info[random[n]], now) {
          ids := ids + [random[n]];
        }
        n := n + 1;
      }
      SamplingEnd(s, Model(), n, limit, draw, now, ids);
    }
  }

  /** The state of GetAddr_ in round n: what is left of the sample completes what has been collected. */
  ghost predicate Sampling(s: State, r: State, n: nat, limit: nat, draw: nat -> nat, now: int, ids: seq<nat>) {
    && RandomOk(s.info.Keys, s.pos, s.random) && RandomOk(r.info.Keys, r.pos, r.random) && |ids| <= limit
    && Sample(s, 0, limit, draw, now)
       == (Sample(r, n, limit - |ids|, draw, now).0, ids + Sample(r, n, limit - |ids|, draw, now).1)
  }

  lemma SamplingStart(s: State, limit: nat, draw: nat -> nat, now: int)
    requires RandomOk(s.info.Keys, s.pos, s.random)
    ensures Sampling(s, s, 0, limit, draw, now, [])
  {
    hide RandomOk, Sample;
    assert [] + Sample(s, 0, limit, draw, now).1 == Sample(s, 0, limit, draw, now).1;
  }

  lemma SamplingBounds(s: State, r: State, n: nat, limit: nat, draw: nat -> nat, now: int, ids: seq<nat>)
    requires Sampling(s, r, n, limit, draw, now, ids)
    ensures RandomOk(r.info.Keys, r.pos, r.random) && |ids| <= limit
  {
    hide RandomOk, Sample;
  }

  lemma SamplingStep(s: State, r: State, n: nat, limit: nat, draw: nat -> nat, now: int, ids: seq<nat>)
    requires Sampling(s, r, n, limit, draw, now, ids) && n < |r.random| && |ids| < limit
    ensures var t := AddrState.SwapRandom(r, n, Pick(draw(n), n, |r.random|));
            && |t.random| == |r.random| && t.random[n] in t.info
            && Sampling(s, t, n + 1, limit, draw, now, if IsTerrible(t.info[t.random[n]], now) then ids else ids + [t.random[n]])
  {
    hide RandomOk, AddrState.SwapRandom, Pick, IsTerrible;
    var p := Pick(draw(n), n, |r.random|);
    SwapIndex(r, n, p);
    var t := AddrState.SwapRandom(r, n, p);
    IsIndexedAt(t.info.Keys, t.pos, t.random, n);
    if !IsTerrible(t.info[t.random[n]], now) {
      var rest := Sample(t, n + 1, limit - |ids| - 1, draw, now).1;
      assert ids + ([t.random[n]] + rest) == ids + [t.random[n]] + rest;
    }
  }

  lemma SamplingEnd(s: State, r: State, n: nat, limit: nat, draw: nat -> nat, now: int, ids: seq<nat>)
    requires Sampling(s, r, n, limit, draw, now, ids) && (n >= |r.random| || |ids| >= limit)
    ensures RandomOk(s.info.Keys, s.pos, s.random) && Sample(s, 0, limit, draw, now) == (r, ids)
  {
    hide RandomOk;
    assert ids + [] == ids;
  }

  lemma RoundMeans(env: Env, s: State, id: nat, start: nat, n: nat)
    requires id in s.info
    ensures HeldInRound(env, s, id, start, n) <==> HeldIn(env, s, id, (n + start) % NEW_BUCKET_COUNT)
  {
  }

  lemma UntryFields(s: State, slot: Slot)
    requires slot in s.triedTable && s.triedTable[slot] in s.info
    ensures var r, id := Untry(s, slot), s.triedTable[slot];
            && r.key == s.key && id in r.info
            && r.info[id].service == s.info[id].service && r.info[id].source == s.info[id].source
  {
  }

  /** The state of LeaveNewBuckets after n buckets. */
  ghost predicate Leaving(s: State, id: nat, n: nat, r: State)
    requires id in s.info
  {
    && r.newTable == Without(s.newTable, id, n)
    && r.info == s.info[id := s.info[id].(refCount := |SlotsOf(r.newTable, id)|)]
    && r == s.(info := r.info, newTable := r.newTable)
  }

  lemma LeavingStart(env: Env, s: State, limbo: set<nat>, id: nat)
    requires Weak(env, s, limbo) && id in s.info
    ensures Leaving(s, id, 0, s)
  {
    hide Weak;
    EntryAtHashed(env, s, limbo, id);
    WithoutEnds(env, s.key, s.info[id].service, s.newTable, id);
    PutTwice(s.info, id, s.info[id], s.info[id]);
  }

  lemma LeavingStep(env: Env, s: State, limbo: set<nat>, id: nat, n: nat, r: State)
    requires Weak(env, s, limbo) && id in s.info && Leaving(s, id, n, r)
    ensures id in r.info
    ensures var slot := Slot(n, env.position(r.key, r.info[id].service, true, n));
            var t := if slot in r.newTable && r.newTable[slot] == id then Vacate(r, slot) else r;
            Leaving(s, id, n + 1, t) && id in t.info
  {
    hide Weak, Without, SlotsOf;
    EntryAtHashed(env, s, limbo, id);
    WithoutStep(env, s.key, s.info[id].service, s.newTable, id, n);
    var slot := Slot(n, env.position(r.key, r.info[id].service, true, n));
    if slot in r.newTable && r.newTable[slot] == id {
      PutTwice(s.info, id, r.info[id], r.info[id].(refCount := r.info[id].refCount - 1));
    }
  }

  lemma LeavingEnd(env: Env, s: State, limbo: set<nat>, id: nat, r: State)
    requires Weak(env, s, limbo) && id in s.info
    requires Leaving(s, id, NEW_BUCKET_COUNT, r)
    ensures r.(newCount := r.newCount - 1) == TakeOut(s, id) && id in r.info && r.info[id].refCount == 0
  {
    hide Weak, Without, SlotsOf;
    EntryAtHashed(env, s, limbo, id);
    WithoutEnds(env, s.key, s.info[id].service, s.newTable, id);
  }
}
