/** Check_ in src/addrman.cpp: it finds no error exactly in the states that satisfy the invariant, but for stale
    address entries, which it does not look for. */
module AddrCheck {
  import opened AddrState
  import AddrMan

  /** The tests on one entry. A missing address reads as id 0, as std::map's operator[] makes it. */
  ghost predicate EntryPasses(s: State, id: nat)
    requires id in s.info
  {
    var i := s.info[id];
    && (if i.inTried then i.lastSuccess != 0 && i.refCount == 0 else 1 <= i.refCount <= NEW_BUCKETS_PER_ADDRESS)
    && (if i.service.addr in s.addr then s.addr[i.service.addr] == id else id == 0)
    && id in s.pos && s.pos[id] < |s.random| && s.random[s.pos[id]] == id
    && i.lastTry >= 0 && i.lastSuccess >= 0
  }

  /** The tests on one occupied slot of the new table. */
  ghost predicate NewSlotPasses(env: Env, s: State, sl: Slot)
    requires sl in s.newTable
  {
    s.newTable[sl] in NewIds(s.info, {}) && sl.pos == env.position(s.key, s.info[s.newTable[sl]].service, true, sl.bucket)
  }

  ghost predicate NewTablePasses(env: Env, s: State) {
    && (forall sl :: sl in s.newTable ==> NewSlotPasses(env, s, sl))
    && (forall id {:trigger SlotsOf(s.newTable, id)} :: id in NewIds(s.info, {}) ==> s.info[id].refCount == |SlotsOf(s.newTable, id)|)
  }

  /** The states in which Check_ finds nothing to complain about. */
  ghost predicate Passes(env: Env, s: State) {
    && |s.random| == s.triedCount + s.newCount
    && (forall id :: id in s.info ==> EntryPasses(s, id))
    && |TriedIds(s.info)| == s.triedCount && |NewIds(s.info, {})| == s.newCount
    && TriedOk(env, s.key, s.info, s.triedTable) && NewTablePasses(env, s)
    && s.key != 0
  }

  // ---------- Passes and the invariant ----------

  lemma IdsSplit(info: map<nat, Info>)
    ensures |info| == |NewIds(info, {})| + |TriedIds(info)|
  {
    assert NewIds(info, {}) !! TriedIds(info);
    assert info.Keys == NewIds(info, {}) + TriedIds(info);
  }

  /** As many positions as ids: vRandom is as long as mapInfo. */
  lemma {:induction false} IndexSize(ids: set<nat>, pos: map<nat, nat>, random: seq<nat>)
    requires RandomOk(ids, pos, random)
    ensures |random| == |ids|
    decreases |random|
  {
    if random == [] {
      assert ids == {};
    } else {
      var id := random[|random| - 1];
      assert id in pos;
      IndexSize(ids - {id}, pos - {id}, random[..|random| - 1]);
    }
  }

  lemma WeakParts(env: Env, s: State)
    requires Weak(env, s, {})
    ensures s.key != 0 && RandomOk(s.info.Keys, s.pos, s.random) && AddrOk(s.info, s.idCount, s.addr)
    ensures NewOk(env, s.key, s.info, s.newTable, {}) && TriedOk(env, s.key, s.info, s.triedTable)
    ensures CountsOk(s.info, s.newCount, s.triedCount, {})
  {
    hide RandomOk, AddrOk, NewOk, TriedOk, CountsOk;
  }

  lemma InvEntryPasses(env: Env, s: State, id: nat)
    requires Inv(env, s) && id in s.info
    ensures EntryPasses(s, id)
  {
    hide Weak, RandomOk, TriedOk, CountsOk;
    WeakParts(env, s);
    IsIndexed(s.info.Keys, s.pos, s.random, id);
    if s.info[id].inTried {
      TriedUnreferenced(env, s.key, s.info, s.newTable, id);
    }
  }

  lemma TriedUnreferenced(env: Env, key: nat, info: map<nat, Info>, newTable: Table, id: nat)
    requires NewOk(env, key, info, newTable, {}) && id in info && info[id].inTried
    ensures info[id].refCount == 0
  {
    assert SlotsOf(newTable, id) == {};
  }

  lemma NewTableOf(env: Env, s: State)
    requires NewOk(env, s.key, s.info, s.newTable, {})
    ensures NewTablePasses(env, s)
  {
  }

  /** Check_ finds no error in a state that satisfies the invariant. */
  lemma InvPasses(env: Env, s: State)
    requires Inv(env, s)
    ensures Passes(env, s)
  {
    hide Weak, RandomOk, AddrOk, NewOk, TriedOk, NewTablePasses, EntryPasses, StatsOk, Referenced;
    WeakParts(env, s);
    IndexSize(s.info.Keys, s.pos, s.random);
    IdsSplit(s.info);
    assert |s.info| == |s.info.Keys|;
    NewTableOf(env, s);
    forall id | id in s.info ensures EntryPasses(s, id) {
      InvEntryPasses(env, s, id);
    }
  }

  /** What Check_ does not test: that mapAddr has exactly the addresses of the entries, that positions belong to
      entries, that ids were handed out by nIdCount. (Bucket numbers are in range by the shape of the table.) */
  ghost predicate NoStale(s: State) {
    && s.pos.Keys <= s.info.Keys
    && (forall a :: a in s.addr ==> s.addr[a] in s.info && s.info[s.addr[a]].service.addr == a)
    && (forall id :: id in s.info ==> id < s.idCount && s.info[id].service.addr in s.addr)
    && (forall sl :: sl in s.newTable ==> sl.bucket < NEW_BUCKET_COUNT)
  }

  /** Distinct ids at distinct positions fill vRandom when there are as many of them. */
  lemma {:induction false} Pigeonhole(ids: set<nat>, pos: map<nat, nat>, random: seq<nat>)
    requires |random| == |ids|
    requires forall id :: id in ids ==> id in pos && pos[id] < |random| && random[pos[id]] == id
    ensures forall p :: 0 <= p < |random| ==> random[p] in ids && pos[random[p]] == p
  {
    var used := set id | id in ids :: pos[id];
    SameSize(ids, pos, used, random);
    assert used <= Range(|random|);
    SubsetOfSameSize(used, Range(|random|));
    forall p | 0 <= p < |random| ensures random[p] in ids && pos[random[p]] == p {
      assert p in used;
    }
  }

  lemma {:induction false} SameSize(ids: set<nat>, pos: map<nat, nat>, image: set<nat>, random: seq<nat>)
    requires forall id :: id in ids ==> id in pos && pos[id] < |random| && random[pos[id]] == id
    requires image == set id | id in ids :: pos[id]
    ensures |image| == |ids|
  {
    if ids != {} {
      var id :| id in ids;
      var rest := set j | j in ids - {id} :: pos[j];
      assert image == rest + {pos[id]};
      assert pos[id] !in rest;
      SameSize(ids - {id}, pos, rest, random);
    }
  }

  function Range(n: nat): (r: set<nat>)
    ensures |r| == n && forall p :: p in r <==> 0 <= p < n
  {
    if n == 0 then {} else Range(n - 1) + {n - 1}
  }

  lemma {:induction false} SubsetOfSameSize(a: set<nat>, b: set<nat>)
    requires a <= b && |a| == |b|
    ensures a == b
  {
    if a != {} {
      var x :| x in a;
      SubsetOfSameSize(a - {x}, b - {x});
    }
  }

  lemma PassesIndexed(env: Env, s: State)
    requires Passes(env, s) && NoStale(s)
    ensures RandomOk(s.info.Keys, s.pos, s.random)
  {
    hide NewTablePasses, TriedOk;
    IdsSplit(s.info);
    assert |s.info.Keys| == |s.info|;
    forall id | id in s.info.Keys ensures id in s.pos && s.pos[id] < |s.random| && s.random[s.pos[id]] == id {
      assert EntryPasses(s, id);
    }
    Pigeonhole(s.info.Keys, s.pos, s.random);
  }

  lemma PassesNew(env: Env, s: State)
    requires Passes(env, s) && NoStale(s)
    ensures NewOk(env, s.key, s.info, s.newTable, {})
  {
    hide TriedOk;
    forall sl | sl in s.newTable
      ensures sl.bucket < NEW_BUCKET_COUNT && s.newTable[sl] in s.info && !s.info[s.newTable[sl]].inTried
      ensures sl.pos == env.position(s.key, s.info[s.newTable[sl]].service, true, sl.bucket)
    {
      assert NewSlotPasses(env, s, sl);
    }
    forall id | id in s.info
      ensures 0 <= s.info[id].refCount <= NEW_BUCKETS_PER_ADDRESS && s.info[id].refCount == |SlotsOf(s.newTable, id)|
    {
      assert EntryPasses(s, id);
      if s.info[id].inTried {
        assert SlotsOf(s.newTable, id) == {};
      } else {
        assert id in NewIds(s.info, {});
      }
    }
  }

  /** A state without stale entries satisfies the invariant iff Check_ finds no error in it. */
  lemma CheckIsInvariant(env: Env, s: State)
    requires NoStale(s)
    ensures Inv(env, s) <==> Passes(env, s)
  {
    hide Weak, NewTablePasses, RandomOk, NewOk, TriedOk, NewIds, TriedIds;
    if Inv(env, s) {
      InvPasses(env, s);
    }
    if Passes(env, s) {
      PassesIndexed(env, s);
      PassesNew(env, s);
      PassesRest(s, env);
      WeakFrom(env, s);
    }
  }

  lemma PassesRest(s: State, env: Env)
    requires Passes(env, s) && NoStale(s)
    ensures AddrOk(s.info, s.idCount, s.addr) && CountsOk(s.info, s.newCount, s.triedCount, {})
    ensures StatsOk(s.info) && Referenced(s.info, {})
  {
    hide NewTablePasses, TriedOk, NewIds, TriedIds;
    forall id | id in s.info ensures EntryPasses(s, id) {
    }
  }

  lemma WeakFrom(env: Env, s: State)
    requires s.key != 0 && RandomOk(s.info.Keys, s.pos, s.random) && AddrOk(s.info, s.idCount, s.addr)
    requires NewOk(env, s.key, s.info, s.newTable, {}) && TriedOk(env, s.key, s.info, s.triedTable)
    requires CountsOk(s.info, s.newCount, s.triedCount, {})
    ensures Weak(env, s, {})
  {
    hide RandomOk, AddrOk, NewOk, TriedOk, CountsOk;
  }

  // ---------- The loops of Check_ ----------

  /** The cells of a table that a row-by-row walk has met before cell (b, p). */
  ghost function Seen(table: Table, b: nat, p: nat): Table {
    map sl | sl in table && (sl.bucket < b || (sl.bucket == b && sl.pos < p)) :: table[sl]
  }

  lemma SeenStep(table: Table, b: nat, p: nat)
    ensures Slot(b, p) !in Seen(table, b, p)
    ensures Seen(table, b, p + 1) ==
            if Slot(b, p) in table then Seen(table, b, p)[Slot(b, p) := table[Slot(b, p)]] else Seen(table, b, p)
  {
    forall sl: Slot | sl.bucket == b && sl.pos == p ensures sl == Slot(b, p) {
    }
  }

  lemma SeenRow(table: Table, b: nat, width: nat)
    requires forall sl :: sl in table ==> sl.pos < width
    ensures Seen(table, b, width) == Seen(table, b + 1, 0)
  {
  }

  lemma SeenAll(table: Table, buckets: nat)
    requires forall sl :: sl in table ==> sl.bucket < buckets
    ensures Seen(table, buckets, 0) == table && Seen(table, 0, 0) == map[]
  {
  }

  /** The walk over the tried table: every slot met holds a tried entry in its place; `left` are the tried ids not met. */
  ghost predicate TriedWalk(env: Env, s: State, seen: Table, left: set<nat>) {
    && (forall sl :: sl in seen ==>
          seen[sl] in s.info && s.info[seen[sl]].inTried && sl == TriedSlot(env, s.key, s.info[seen[sl]].service))
    && left == TriedIds(s.info) - seen.Values
  }

  lemma TriedWalkStep(env: Env, s: State, seen: Table, left: set<nat>, sl: Slot)
    requires TriedWalk(env, s, seen, left) && sl !in seen && sl in s.triedTable
    requires forall t :: t in seen ==> t in s.triedTable && s.triedTable[t] == seen[t]
    ensures var id := s.triedTable[sl];
            if id in left && id in s.info && sl == TriedSlot(env, s.key, s.info[id].service)
            then TriedWalk(env, s, seen[sl := id], left - {id})
            else !TriedOk(env, s.key, s.info, s.triedTable)
  {
    var id := s.triedTable[sl];
    if id in left && id in s.info && sl == TriedSlot(env, s.key, s.info[id].service) {
      var more := seen[sl := id];
      assert more.Values == seen.Values + {id} by {
        assert more[sl] == id;
        forall v | v in seen.Values ensures v in more.Values {
          var t :| t in seen && seen[t] == v;
          assert more[t] == v;
        }
      }
    } else if id in TriedIds(s.info) && sl == TriedSlot(env, s.key, s.info[id].service) {
      NotMetTwice(env, s, seen, left, sl, id);
    }
  }

  lemma NotMetTwice(env: Env, s: State, seen: Table, left: set<nat>, sl: Slot, id: nat)
    requires TriedWalk(env, s, seen, left) && sl !in seen
    requires id in TriedIds(s.info) && sl == TriedSlot(env, s.key, s.info[id].service)
    ensures id in left
  {
    assert forall t :: t in seen ==> seen[t] != id;
  }

  lemma TriedWalkEnd(env: Env, s: State, left: set<nat>)
    requires TriedWalk(env, s, s.triedTable, left)
    ensures left == {} <==> TriedOk(env, s.key, s.info, s.triedTable)
  {
    if left == {} {
      forall id | id in s.info && s.info[id].inTried
        ensures TriedSlot(env, s.key, s.info[id].service) in s.triedTable && s.triedTable[TriedSlot(env, s.key, s.info[id].service)] == id
      {
        assert id in TriedIds(s.info);
        assert id !in TriedIds(s.info) - s.triedTable.Values;
        var t :| t in s.triedTable && s.triedTable[t] == id;
      }
    } else {
      var id :| id in left;
      assert forall t :: t in s.triedTable ==> s.triedTable[t] != id;
    }
  }

  /** The walk over the new table: every slot met passes; `left` holds, for each new id with references not met yet, their number. */
  ghost predicate NewWalk(env: Env, s: State, seen: Table, left: map<nat, int>) {
    && (forall sl :: sl in seen ==> sl in s.newTable && s.newTable[sl] == seen[sl] && NewSlotPasses(env, s, sl))
    && (forall id :: id in left ==> id in NewIds(s.info, {}) && left[id] > 0)
    && (forall id {:trigger SlotsOf(seen, id)} :: id in NewIds(s.info, {}) ==>
          s.info[id].refCount == |SlotsOf(seen, id)| + if id in left then left[id] else 0)
  }

  lemma SlotsOfMore(table: Table, sl: Slot, id: nat, j: nat)
    requires sl !in table
    ensures SlotsOf(table[sl := id], j) == if j == id then SlotsOf(table, j) + {sl} else SlotsOf(table, j)
    ensures |SlotsOf(table[sl := id], j)| == |SlotsOf(table, j)| + if j == id then 1 else 0
  {
    if j == id {
      assert SlotsOf(table[sl := id], j) == SlotsOf(table, j) + {sl};
    } else {
      assert SlotsOf(table[sl := id], j) == SlotsOf(table, j);
    }
  }

  lemma SlotsOfSub(a: Table, b: Table, id: nat)
    requires forall sl :: sl in a ==> sl in b && b[sl] == a[sl]
    ensures |SlotsOf(a, id)| <= |SlotsOf(b, id)|
  {
    SlotSubset(SlotsOf(a, id), SlotsOf(b, id));
  }

  lemma {:induction false} SlotSubset(a: set<Slot>, b: set<Slot>)
    requires a <= b
    ensures |a| <= |b|
  {
    if a != {} {
      var x :| x in a;
      SlotSubset(a - {x}, b - {x});
    }
  }

  /** One more reference met: the count left goes down, and the id leaves at zero. */
  function CountDown(left: map<nat, int>, id: nat): map<nat, int>
    requires id in left
  {
    if left[id] - 1 == 0 then left - {id} else left[id := left[id] - 1]
  }

  lemma NewWalkStep(env: Env, s: State, seen: Table, left: map<nat, int>, sl: Slot)
    requires NewWalk(env, s, seen, left) && sl !in seen && sl in s.newTable
    ensures var id := s.newTable[sl];
            if id in left && id in s.info && sl.pos == env.position(s.key, s.info[id].service, true, sl.bucket)
            then NewWalk(env, s, seen[sl := id], CountDown(left, id))
            else !NewTablePasses(env, s)
  {
    hide SlotsOf;
    var id := s.newTable[sl];
    forall j ensures |SlotsOf(seen[sl := id], j)| == |SlotsOf(seen, j)| + if j == id then 1 else 0 {
      SlotsOfMore(seen, sl, id, j);
    }
    if id in left && id in s.info && sl.pos == env.position(s.key, s.info[id].service, true, sl.bucket) {
      assert NewSlotPasses(env, s, sl);
      var more, rest := seen[sl := id], CountDown(left, id);
      assert forall t :: t in more ==> t in s.newTable && s.newTable[t] == more[t] && NewSlotPasses(env, s, t);
      assert forall j :: j in rest ==> j in NewIds(s.info, {}) && rest[j] > 0;
      forall j | j in NewIds(s.info, {}) ensures s.info[j].refCount == |SlotsOf(more, j)| + if j in rest then rest[j] else 0 {
        assert s.info[j].refCount == |SlotsOf(seen, j)| + if j in left then left[j] else 0;
      }
    } else if NewSlotPasses(env, s, sl) {
      assert s.info[id].refCount == |SlotsOf(seen, id)|;
      SlotsOfSub(seen[sl := id], s.newTable, id);
      assert s.info[id].refCount < |SlotsOf(s.newTable, id)|;
    }
  }

  lemma NewWalkEnd(env: Env, s: State, left: map<nat, int>)
    requires NewWalk(env, s, s.newTable, left)
    ensures left == map[] <==> NewTablePasses(env, s)
  {
    hide SlotsOf;
    if left.Keys != {} {
      var id :| id in left.Keys;
      assert s.info[id].refCount == |SlotsOf(s.newTable, id)| + left[id];
    } else {
      assert left == map[];
    }
  }

  /** The walk of Check_ over the tried table. */
  method CheckTried(m: AddrMan.AddrMan, ids: set<nat>) returns (err: int, left: set<nat>)
    requires m.Shape() && ids == TriedIds(m.info)
    ensures err != 0 ==> !TriedOk(m.env, m.key, m.info, m.vvTried.table)
    ensures err == 0 ==> TriedWalk(m.env, m.Model(), m.vvTried.table, left)
  {
    hide TriedWalk, TriedOk, Seen, TriedSlot;
    ghost var s := m.Model();
    err, left := 0, ids;
    TriedWalkStart(m.env, s);
    for n := 0 to TRIED_BUCKET_COUNT
      invariant TriedWalk(m.env, s, Seen(s.triedTable, n, 0), left) && left <= ids
    {
      for i := 0 to BUCKET_SIZE
        invariant TriedWalk(m.env, s, Seen(s.triedTable, n, i), left) && left <= ids
      {
        SeenStep(s.triedTable, n, i);
        SeenAgrees(s.triedTable, n, i);
        var held := m.vvTried.Get(n, i);
        if held != -1 {
          TriedWalkStep(m.env, s, Seen(s.triedTable, n, i), left, Slot(n, i));
          if held !in left { return -11, left; }
          TriedHome(m.env, s, held, Slot(n, i));
          if m.env.triedBucket(m.key, m.info[held].service) != n { return -17, left; }
          if m.env.position(m.key, m.info[held].service, false, n) != i { return -18, left; }
          left := left - {held};
        }
      }
      SeenRow(s.triedTable, n, BUCKET_SIZE);
    }
    SeenAll(s.triedTable, TRIED_BUCKET_COUNT);
  }

  lemma TriedWalkStart(env: Env, s: State)
    ensures TriedWalk(env, s, Seen(s.triedTable, 0, 0), TriedIds(s.info))
  {
    assert Seen(s.triedTable, 0, 0).Values == {};
  }

  lemma SeenAgrees(table: Table, b: nat, p: nat)
    ensures forall t :: t in Seen(table, b, p) ==> t in table && table[t] == Seen(table, b, p)[t]
  {
  }

  lemma TriedHome(env: Env, s: State, id: nat, sl: Slot)
    requires id in s.info
    ensures sl == TriedSlot(env, s.key, s.info[id].service) <==>
            env.triedBucket(s.key, s.info[id].service) == sl.bucket && env.position(s.key, s.info[id].service, false, sl.bucket) == sl.pos
  {
  }

  /** The references to be met, before the walk over the new table. */
  ghost function Expected(info: map<nat, Info>): map<nat, int> {
    map id | id in info && !info[id].inTried :: info[id].refCount
  }

  lemma NewWalkStart(env: Env, s: State)
    requires forall id :: id in s.info ==> EntryPasses(s, id)
    ensures NewWalk(env, s, Seen(s.newTable, 0, 0), Expected(s.info))
  {
    assert Seen(s.newTable, 0, 0) == map[];
    forall id ensures SlotsOf(map[], id) == {} {
    }
    forall id | id in NewIds(s.info, {}) ensures s.info[id].refCount > 0 {
      assert EntryPasses(s, id);
    }
  }

  /** The walk of Check_ over the new table. */
  method CheckNew(m: AddrMan.AddrMan, expected: map<nat, int>) returns (err: int, left: map<nat, int>)
    requires m.Shape() && expected == Expected(m.info)
    requires forall id :: id in m.info ==> EntryPasses(m.Model(), id)
    ensures err != 0 ==> !NewTablePasses(m.env, m.Model())
    ensures err == 0 ==> NewWalk(m.env, m.Model(), m.vvNew.table, left)
  {
    hide NewWalk, NewTablePasses, Seen, EntryPasses;
    ghost var s := m.Model();
    err, left := 0, expected;
    NewWalkStart(m.env, s);
    for n := 0 to NEW_BUCKET_COUNT
      invariant NewWalk(m.env, s, Seen(s.newTable, n, 0), left) && left.Keys <= m.info.Keys
    {
      for i := 0 to BUCKET_SIZE
        invariant NewWalk(m.env, s, Seen(s.newTable, n, i), left) && left.Keys <= m.info.Keys
      {
        SeenStep(s.newTable, n, i);
        var held := m.vvNew.Get(n, i);
        if held != -1 {
          NewWalkStep(m.env, s, Seen(s.newTable, n, i), left, Slot(n, i));
          if held !in left { return -12, left; }
          if m.env.position(m.key, m.info[held].service, true, n) != i { return -19, left; }
          left := CountDown(left, held);
        }
      }
      SeenRow(s.newTable, n, BUCKET_SIZE);
    }
    SeenAll(s.newTable, NEW_BUCKET_COUNT);
  }

  /** The part of mapAddr that Check_ may add: missing addresses, read as id 0. */
  ghost predicate ZeroExtension(before: map<NetAddr, nat>, after: map<NetAddr, nat>) {
    && (forall a :: a in before ==> a in after && after[a] == before[a])
    && (forall a :: a in after && a !in before ==> after[a] == 0)
  }

  /** The tests of Check_ on one entry; s is the state before the walk. */
  method CheckEntry(m: AddrMan.AddrMan, n: nat, ghost s: State) returns (err: int)
    requires m.Shape() && n in m.info && m.Model() == s.(addr := m.addr) && ZeroExtension(s.addr, m.addr)
    modifies m
    ensures m.Shape() && m.Model() == s.(addr := m.addr) && ZeroExtension(s.addr, m.addr)
    ensures err == 0 <==> EntryPasses(s, n)
    ensures m.info[n].service.addr in old(m.addr) ==> m.addr == old(m.addr)
  {
    var i := m.info[n];
    if i.inTried {
      if i.lastSuccess == 0 { return -1; }
      if i.refCount != 0 { return -2; }
    } else {
      if i.refCount < 0 || i.refCount > NEW_BUCKETS_PER_ADDRESS { return -3; }
      if i.refCount == 0 { return -4; }
    }
    if i.service.addr !in m.addr {
      m.addr := m.addr[i.service.addr := 0];
    }
    if m.addr[i.service.addr] != n { return -5; }
    if !(n in m.pos && m.pos[n] < |m.random| && m.random[m.pos[n]] == n) { return -14; }
    if i.lastTry < 0 { return -6; }
    if i.lastSuccess < 0 { return -8; }
    err := 0;
  }

  /** The tried ids and the expected references among the entries already walked over. */
  ghost predicate Collected(info: map<nat, Info>, todo: set<nat>, tried: set<nat>, expected: map<nat, int>) {
    && (forall id :: id in tried <==> id in info && id !in todo && info[id].inTried)
    && (forall id :: id in expected <==> id in info && id !in todo && !info[id].inTried)
    && (forall id :: id in expected ==> expected[id] == info[id].refCount)
  }

  lemma CollectedAll(info: map<nat, Info>, tried: set<nat>, expected: map<nat, int>)
    requires Collected(info, {}, tried, expected)
    ensures tried == TriedIds(info) && expected == Expected(info)
  {
  }

  /** The walk of Check_ over the entries. */
  method CheckEntries(m: AddrMan.AddrMan) returns (err: int, tried: set<nat>, expected: map<nat, int>)
    requires m.Shape()
    modifies m
    ensures m.Shape() && m.Model() == old(m.Model()).(addr := m.addr) && ZeroExtension(old(m.addr), m.addr)
    ensures err == 0 <==> forall id :: id in m.info ==> EntryPasses(old(m.Model()), id)
    ensures err == 0 ==> tried == TriedIds(m.info) && expected == Expected(m.info)
    ensures err == 0 && (forall id :: id in m.info ==> m.info[id].service.addr in old(m.addr)) ==> m.addr == old(m.addr)
  {
    hide EntryPasses, Expected;
    ghost var s := m.Model();
    err, tried, expected := 0, {}, map[];
    var todo := m.info.Keys;
    while todo != {}
      invariant m.Shape() && m.Model() == s.(addr := m.addr) && ZeroExtension(s.addr, m.addr)
      invariant todo <= m.info.Keys
      invariant forall id :: id in m.info && id !in todo ==> EntryPasses(s, id)
      invariant Collected(m.info, todo, tried, expected)
      invariant (forall id :: id in m.info ==> m.info[id].service.addr in s.addr) ==> m.addr == s.addr
      decreases todo
    {
      var n :| n in todo;
      err := CheckEntry(m, n, s);
      if err != 0 { return; }
      if m.info[n].inTried {
        tried := tried + {n};
      } else {
        expected := expected[n := m.info[n].refCount];
      }
      todo := todo - {n};
    }
    CollectedAll(m.info, tried, expected);
  }

  /** Check_: 0 iff the state passes; it changes nothing but missing entries of mapAddr. */
  method Check(m: AddrMan.AddrMan) returns (err: int)
    requires m.Shape()
    modifies m
    ensures m.Shape() && m.Model() == old(m.Model()).(addr := m.addr) && ZeroExtension(old(m.addr), m.addr)
    ensures err == 0 <==> Passes(m.env, old(m.Model()))
    ensures Inv(m.env, old(m.Model())) ==> err == 0 && m.Model() == old(m.Model())
  {
    hide Inv, NewWalk, TriedWalk, EntryPasses, TriedOk, NewTablePasses;
    ghost var s := m.Model();
    if Inv(m.env, s) {
      InvPasses(m.env, s);
      InvAddresses(m.env, s);
    }
    if |m.random| != m.triedCount + m.newCount { return -7; }
    var tried, expected;
    err, tried, expected := CheckEntries(m);
    if err != 0 { return; }
    ExpectedIds(m.info);
    if |tried| != m.triedCount { return -9; }
    if |expected| != m.newCount { return -10; }
    var e, left := CheckTried(m, tried);
    if e != 0 { return e; }
    SameChecks(m.env, s, m.Model());
    var leftNew;
    e, leftNew := CheckNew(m, expected);
    if e != 0 { return e; }
    TriedWalkEnd(m.env, m.Model(), left);
    NewWalkEnd(m.env, m.Model(), leftNew);
    if left != {} { return -13; }
    if leftNew != map[] { return -15; }
    if m.key == 0 { return -16; }
  }

  lemma InvAddresses(env: Env, s: State)
    requires Inv(env, s)
    ensures forall id :: id in s.info ==> s.info[id].service.addr in s.addr
  {
    hide RandomOk, NewOk, TriedOk, CountsOk, Referenced, StatsOk;
  }

  lemma ExpectedIds(info: map<nat, Info>)
    ensures |Expected(info)| == |NewIds(info, {})|
  {
    assert Expected(info).Keys == NewIds(info, {});
  }

  /** Reading a missing address as 0 does not change the verdict on any entry. */
  lemma SameChecks(env: Env, s: State, t: State)
    requires t == s.(addr := t.addr) && ZeroExtension(s.addr, t.addr)
    requires forall id :: id in s.info ==> EntryPasses(s, id)
    ensures forall id :: id in t.info ==> EntryPasses(t, id)
    ensures NewTablePasses(env, s) <==> NewTablePasses(env, t)
  {
    assert NewTablePasses(env, s) <==> NewTablePasses(env, t) by {
      forall sl | sl in s.newTable ensures NewSlotPasses(env, s, sl) <==> NewSlotPasses(env, t, sl) {
      }
    }
  }
}
