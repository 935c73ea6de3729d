/** The tables of the address manager as values, and the invariant that ties them together:
    src/addrman.cpp and src/addrman.h.
    The invariant is a conjunction of small predicates, one for each pair of indexes.
    Each basic operation is a function, and one lemma for each conjunct says that it
    keeps it; the lemma named after the operation puts them together. */
module AddrState {

  const TRIED_BUCKET_COUNT: nat := 256
  const NEW_BUCKET_COUNT: nat := 1024
  const BUCKET_SIZE: nat := 64
  const NEW_BUCKETS_PER_ADDRESS: nat := 8
  const HORIZON_DAYS: nat := 30
  const RETRIES: nat := 3
  const MAX_FAILURES: nat := 10
  const MIN_FAIL_DAYS: nat := 7
  const DAY: nat := 24 * 60 * 60

  /** CNetAddr: an address without a port. */
  datatype NetAddr = NetAddr(ip: nat)

  /** CService: an address with a port. */
  datatype Service = Service(addr: NetAddr, port: nat)

  /** CAddress as received from the network; `services` are the service bits. */
  datatype Address = Address(service: Service, services: bv64, time: nat)

  /** CAddrInfo without nRandomPos, which the state keeps in a map of its own. */
  datatype Info = Info(
    service: Service, services: bv64, time: nat, lastTry: int,
    source: NetAddr, lastSuccess: int, attempts: int, refCount: int, inTried: bool)

  type TriedIndex = b: nat | b < TRIED_BUCKET_COUNT
  type NewIndex = b: nat | b < NEW_BUCKET_COUNT
  type PosIndex = p: nat | p < BUCKET_SIZE

  /** Where the hash sends an address, and the test for routability. All results hold for any such functions. */
  datatype Env = Env(
    triedBucket: (nat, Service) -> TriedIndex,
    newBucket: (nat, Service, NetAddr) -> NewIndex,
    position: (nat, Service, bool, nat) -> PosIndex,
    routable: NetAddr -> bool)

  datatype Slot = Slot(bucket: nat, pos: nat)

  function TriedSlot(env: Env, key: nat, service: Service): Slot {
    var b := env.triedBucket(key, service);
    Slot(b, env.position(key, service, false, b))
  }

  function NewSlot(env: Env, key: nat, service: Service, source: NetAddr): Slot {
    var b := env.newBucket(key, service, source);
    Slot(b, env.position(key, service, true, b))
  }

  /** The fields of CAddrMan. A bucket table maps its occupied slots to ids; -1 is absence. */
  datatype Fields<I, P, A, R, T> = Fields(
    key: nat, idCount: nat, info: I, pos: P, addr: A, random: R,
    triedCount: int, newCount: int, triedTable: T, newTable: T)

  type Table = map<Slot, nat>
  type State = Fields<map<nat, Info>, map<nat, nat>, map<NetAddr, nat>, seq<nat>, Table>

  // ---------- The invariant ----------

  /** vRandom lists exactly the ids, each at the position its entry remembers. */
  ghost predicate RandomOk(ids: set<nat>, pos: map<nat, nat>, random: seq<nat>) {
    && pos.Keys == ids
    && (forall p :: 0 <= p < |random| ==> random[p] in pos && pos[random[p]] == p)
    && (forall id :: id in pos ==> pos[id] < |random| && random[pos[id]] == id)
  }

  /** mapAddr is the inverse of mapInfo; ids are below nIdCount. */
  ghost predicate AddrOk(info: map<nat, Info>, idCount: nat, addr: map<NetAddr, nat>) {
    && (forall id :: id in info ==> id < idCount && info[id].service.addr in addr && addr[info[id].service.addr] == id)
    && (forall a :: a in addr ==> addr[a] in info && info[addr[a]].service.addr == a)
  }

  ghost function SlotsOf(table: Table, id: nat): set<Slot> {
    set sl | sl in table && table[sl] == id
  }

  /** The new table: slots hold untried ids at their hashed position, reference counts are slot counts.
      Ids in `limbo` are in neither table. */
  ghost predicate NewOk(env: Env, key: nat, info: map<nat, Info>, newTable: Table, limbo: set<nat>) {
    && (forall sl :: sl in newTable ==>
          && sl.bucket < NEW_BUCKET_COUNT && newTable[sl] in info && newTable[sl] !in limbo && !info[newTable[sl]].inTried
          && sl.pos == env.position(key, info[newTable[sl]].service, true, sl.bucket))
    && (forall id :: id in info ==> 0 <= info[id].refCount <= NEW_BUCKETS_PER_ADDRESS)
    && (forall id {:trigger SlotsOf(newTable, id)} :: id in info ==> info[id].refCount == |SlotsOf(newTable, id)|)
    && (forall id :: id in limbo ==> id in info && !info[id].inTried)
  }

  /** The tried table: each tried id sits in exactly its hashed slot. */
  ghost predicate TriedOk(env: Env, key: nat, info: map<nat, Info>, triedTable: Table) {
    && (forall sl :: sl in triedTable ==>
          triedTable[sl] in info && info[triedTable[sl]].inTried && sl == TriedSlot(env, key, info[triedTable[sl]].service))
    && (forall id :: id in info && info[id].inTried ==>
          TriedSlot(env, key, info[id].service) in triedTable && triedTable[TriedSlot(env, key, info[id].service)] == id)
  }

  ghost function NewIds(info: map<nat, Info>, limbo: set<nat>): set<nat> {
    set id | id in info && !info[id].inTried && id !in limbo
  }

  ghost function TriedIds(info: map<nat, Info>): set<nat> {
    set id | id in info && info[id].inTried
  }

  ghost predicate CountsOk(info: map<nat, Info>, newCount: int, triedCount: int, limbo: set<nat>) {
    newCount == |NewIds(info, limbo)| && triedCount == |TriedIds(info)|
  }

  /** The time stamps Check_ tests. */
  ghost predicate StatsOk(info: map<nat, Info>) {
    forall id :: id in info ==>
      info[id].lastTry >= 0 && info[id].lastSuccess >= 0 && (info[id].inTried ==> info[id].lastSuccess != 0)
  }

  /** The invariant inside an operation: ids in limbo are in neither table, and counts may be zero. */
  ghost predicate Weak(env: Env, s: State, limbo: set<nat>) {
    && s.key != 0
    && RandomOk(s.info.Keys, s.pos, s.random)
    && AddrOk(s.info, s.idCount, s.addr)
    && NewOk(env, s.key, s.info, s.newTable, limbo)
    && TriedOk(env, s.key, s.info, s.triedTable)
    && CountsOk(s.info, s.newCount, s.triedCount, limbo)
  }

  /** Every id outside `except` is in one of the tables. */
  ghost predicate Referenced(info: map<nat, Info>, except: set<nat>) {
    forall id :: id in info && id !in except ==> info[id].inTried || info[id].refCount > 0
  }

  /** The invariant between operations: everything that Check_ tests, and more. */
  ghost predicate Inv(env: Env, s: State) {
    Sound(env, s) && StatsOk(s.info)
  }

  /** The part of the invariant that does not concern time stamps. */
  ghost predicate Sound(env: Env, s: State) {
    Weak(env, s, {}) && Referenced(s.info, {})
  }

  // ---------- Building blocks ----------

  /** Find: the id of an address. */
  predicate Knows(s: State, a: NetAddr) {
    a in s.addr && s.addr[a] in s.info
  }

  function Create(s: State, addr: Address, source: NetAddr): State {
    var id := s.idCount;
    s.(idCount := id + 1,
       info := s.info[id := Info(addr.service, addr.services, addr.time, 0, source, 0, 0, 0, false)],
       addr := s.addr[addr.service.addr := id],
       pos := s.pos[id := |s.random|],
       random := s.random + [id])
  }

  lemma AppendIndex(ids: set<nat>, pos: map<nat, nat>, random: seq<nat>, id: nat)
    requires RandomOk(ids, pos, random) && id !in ids
    ensures RandomOk(ids + {id}, pos[id := |random|], random + [id])
  {
  }

  lemma AppendNew(env: Env, key: nat, info: map<nat, Info>, newTable: Table, limbo: set<nat>, id: nat, i: Info)
    requires NewOk(env, key, info, newTable, limbo) && id !in info && i.refCount == 0
    ensures NewOk(env, key, info[id := i], newTable, limbo)
  {
    assert SlotsOf(newTable, id) == {};
  }

  lemma AppendTried(env: Env, key: nat, info: map<nat, Info>, triedTable: Table, id: nat, i: Info)
    requires TriedOk(env, key, info, triedTable) && id !in info && !i.inTried
    ensures TriedOk(env, key, info[id := i], triedTable)
  {
  }

  lemma AppendCounts(info: map<nat, Info>, newCount: int, triedCount: int, limbo: set<nat>, id: nat, i: Info)
    requires CountsOk(info, newCount, triedCount, limbo) && id !in info && id !in limbo && !i.inTried
    ensures CountsOk(info[id := i], newCount + 1, triedCount, limbo)
  {
    assert NewIds(info[id := i], limbo) == NewIds(info, limbo) + {id};
    assert TriedIds(info[id := i]) == TriedIds(info);
  }

  lemma AppendAddr(info: map<nat, Info>, idCount: nat, addr: map<NetAddr, nat>, i: Info)
    requires AddrOk(info, idCount, addr) && i.service.addr !in addr
    ensures AddrOk(info[idCount := i], idCount + 1, addr[i.service.addr := idCount])
  {
  }

  /** A new, untried entry without references, counted. */
  function Admit(s: State, i: Info): State {
    var id := s.idCount;
    s.(idCount := id + 1, info := s.info[id := i], addr := s.addr[i.service.addr := id], pos := s.pos[id := |s.random|],
       random := s.random + [id], newCount := s.newCount + 1)
  }

  lemma AdmitKeeps(env: Env, s: State, i: Info)
    requires Weak(env, s, {}) && i.service.addr !in s.addr && !i.inTried && i.refCount == 0
    ensures Weak(env, Admit(s, i), {})
  {
    var id := s.idCount;
    assert id !in s.info;
    hide RandomOk, AddrOk, NewOk, TriedOk, CountsOk;
    var r := Admit(s, i);
    AppendIndex(s.info.Keys, s.pos, s.random, id);
    assert r.info.Keys == s.info.Keys + {id};
    AppendAddr(s.info, id, s.addr, i);
    AppendNew(env, s.key, s.info, s.newTable, {}, id, i);
    AppendTried(env, s.key, s.info, s.triedTable, id, i);
    AppendCounts(s.info, s.newCount, s.triedCount, {}, id, i);
  }

  lemma CreateKeeps(env: Env, s: State, addr: Address, source: NetAddr)
    requires Weak(env, s, {}) && addr.service.addr !in s.addr
    ensures var r := Create(s, addr, source); Weak(env, r.(newCount := r.newCount + 1), {})
  {
    hide Weak;
    AdmitKeeps(env, s, Info(addr.service, addr.services, addr.time, 0, source, 0, 0, 0, false));
  }

  /** SwapRandom. */
  function SwapRandom(s: State, p1: nat, p2: nat): State
    requires p1 < |s.random| && p2 < |s.random|
  {
    if p1 == p2 then s
    else
      var id1, id2 := s.random[p1], s.random[p2];
      s.(pos := s.pos[id1 := p2][id2 := p1], random := s.random[p1 := id2][p2 := id1])
  }

  lemma SwapIndex(s: State, p1: nat, p2: nat)
    requires RandomOk(s.info.Keys, s.pos, s.random) && p1 < |s.random| && p2 < |s.random|
    ensures var r := SwapRandom(s, p1, p2);
            && RandomOk(r.info.Keys, r.pos, r.random)
            && |r.random| == |s.random| && r.random[p2] == s.random[p1] && r.random[p1] == s.random[p2]
  {
    if p1 != p2 {
      var id1, id2 := s.random[p1], s.random[p2];
      assert s.pos[id1] == p1 && s.pos[id2] == p2;
      var r := SwapRandom(s, p1, p2);
      assert r.pos.Keys == s.pos.Keys;
    }
  }

  lemma SwapRandomKeeps(env: Env, s: State, p1: nat, p2: nat, limbo: set<nat>)
    requires Weak(env, s, limbo) && p1 < |s.random| && p2 < |s.random|
    ensures Weak(env, SwapRandom(s, p1, p2), limbo)
    ensures |SwapRandom(s, p1, p2).random| == |s.random| && SwapRandom(s, p1, p2).random[p2] == s.random[p1]
  {
    hide RandomOk, AddrOk, NewOk, TriedOk, CountsOk;
    SwapIndex(s, p1, p2);
  }

  lemma IsIndexed(ids: set<nat>, pos: map<nat, nat>, random: seq<nat>, id: nat)
    requires RandomOk(ids, pos, random) && id in ids
    ensures id in pos && pos[id] < |random| && random[pos[id]] == id
  {
  }

  lemma EntryIsIndexed(env: Env, s: State, id: nat, limbo: set<nat>)
    requires Weak(env, s, limbo) && id in s.info
    ensures id in s.pos && s.pos[id] < |s.random| && s.random[s.pos[id]] == id
  {
    hide RandomOk, AddrOk, NewOk, TriedOk, CountsOk;
    IsIndexed(s.info.Keys, s.pos, s.random, id);
  }

  /** The second half of Delete: forgets an entry that stands last in vRandom. */
  function Drop(s: State, id: nat): State
    requires id in s.info && s.random != []
  {
    s.(random := s.random[..|s.random| - 1], addr := s.addr - {s.info[id].service.addr},
       info := s.info - {id}, pos := s.pos - {id}, newCount := s.newCount - 1)
  }

  /** Delete: forgets an entry that no table refers to. */
  function Delete(s: State, id: nat): State
    requires id in s.info && id in s.pos && s.pos[id] < |s.random|
  {
    Drop(SwapRandom(s, s.pos[id], |s.random| - 1), id)
  }

  lemma DropLast(ids: set<nat>, pos: map<nat, nat>, random: seq<nat>)
    requires RandomOk(ids, pos, random) && random != []
    ensures var id := random[|random| - 1]; RandomOk(ids - {id}, pos - {id}, random[..|random| - 1])
  {
  }

  lemma DropUnreferenced(env: Env, key: nat, info: map<nat, Info>, newTable: Table, limbo: set<nat>, id: nat)
    requires NewOk(env, key, info, newTable, limbo) && id in info && id !in limbo && info[id].refCount == 0
    ensures NewOk(env, key, info - {id}, newTable, limbo)
  {
    forall sl | sl in newTable ensures newTable[sl] != id {
      assert newTable[sl] == id ==> sl in SlotsOf(newTable, id);
    }
  }

  lemma DropAddr(info: map<nat, Info>, idCount: nat, addr: map<NetAddr, nat>, id: nat)
    requires AddrOk(info, idCount, addr) && id in info
    ensures AddrOk(info - {id}, idCount, addr - {info[id].service.addr})
  {
  }

  lemma DropTried(env: Env, key: nat, info: map<nat, Info>, triedTable: Table, id: nat)
    requires TriedOk(env, key, info, triedTable) && id in info && !info[id].inTried
    ensures TriedOk(env, key, info - {id}, triedTable)
  {
  }

  lemma DropCounts(info: map<nat, Info>, newCount: int, triedCount: int, limbo: set<nat>, id: nat)
    requires CountsOk(info, newCount, triedCount, limbo) && id in info && id !in limbo && !info[id].inTried
    ensures CountsOk(info - {id}, newCount - 1, triedCount, limbo)
  {
    assert NewIds(info - {id}, limbo) == NewIds(info, limbo) - {id};
    assert id in NewIds(info, limbo);
    assert TriedIds(info - {id}) == TriedIds(info);
  }

  lemma DropKeeps(env: Env, s: State, id: nat, limbo: set<nat>)
    requires Weak(env, s, limbo) && id in s.info && id !in limbo && !s.info[id].inTried && s.info[id].refCount == 0
    requires s.random != [] && s.random[|s.random| - 1] == id
    ensures Weak(env, Drop(s, id), limbo)
  {
    hide RandomOk, AddrOk, NewOk, TriedOk, CountsOk;
    assert (s.info - {id}).Keys == s.info.Keys - {id};
    DropLast(s.info.Keys, s.pos, s.random);
    DropAddr(s.info, s.idCount, s.addr, id);
    DropUnreferenced(env, s.key, s.info, s.newTable, limbo, id);
    DropTried(env, s.key, s.info, s.triedTable, id);
    DropCounts(s.info, s.newCount, s.triedCount, limbo, id);
  }

  lemma DeleteKeeps(env: Env, s: State, id: nat, limbo: set<nat>)
    requires Weak(env, s, limbo) && id in s.info && id !in limbo && !s.info[id].inTried && s.info[id].refCount == 0
    ensures id in s.pos && s.pos[id] < |s.random|
    ensures Weak(env, Delete(s, id), limbo)
  {
    hide Weak;
    EntryIsIndexed(env, s, id, limbo);
    SwapRandomKeeps(env, s, s.pos[id], |s.random| - 1, limbo);
    DropKeeps(env, SwapRandom(s, s.pos[id], |s.random| - 1), id, limbo);
  }

  // ---------- ClearNew ----------

  /** The first half of ClearNew: empties an occupied slot and takes it off the entry's reference count. */
  function Vacate(s: State, slot: Slot): State
    requires slot in s.newTable && s.newTable[slot] in s.info
  {
    var id := s.newTable[slot];
    s.(info := s.info[id := s.info[id].(refCount := s.info[id].refCount - 1)], newTable := s.newTable - {slot})
  }

  /** ClearNew: empties a slot of the new table; an entry that loses its last slot is deleted. */
  function ClearNew(s: State, slot: Slot): State
    requires slot in s.newTable ==> s.newTable[slot] in s.info && s.newTable[slot] in s.pos && s.pos[s.newTable[slot]] < |s.random|
  {
    if slot !in s.newTable then s
    else
      var id := s.newTable[slot];
      var r := Vacate(s, slot);
      if r.info[id].refCount == 0 then Delete(r, id) else r
  }

  lemma Unslot(env: Env, key: nat, info: map<nat, Info>, newTable: Table, limbo: set<nat>, slot: Slot)
    requires NewOk(env, key, info, newTable, limbo) && slot in newTable
    ensures var id := newTable[slot];
            && info[id].refCount > 0
            && NewOk(env, key, info[id := info[id].(refCount := info[id].refCount - 1)], newTable - {slot}, limbo)
  {
    hide SlotsOf;
    SlotsAfterVacating(newTable, slot);
    assert info[newTable[slot]].refCount == |SlotsOf(newTable, newTable[slot])|;
  }

  lemma SlotsAfterVacating(table: Table, slot: Slot)
    requires slot in table
    ensures var rest, id := table - {slot}, table[slot];
      && |SlotsOf(rest, id)| == |SlotsOf(table, id)| - 1
      && forall j {:trigger SlotsOf(rest, j)} :: j != id ==> SlotsOf(rest, j) == SlotsOf(table, j)
  {
    var rest, id := table - {slot}, table[slot];
    assert slot in SlotsOf(table, id);
    assert SlotsOf(rest, id) == SlotsOf(table, id) - {slot};
    forall j: nat | j != id ensures SlotsOf(rest, j) == SlotsOf(table, j) {
    }
  }

  /** Changing an entry's reference count matters to the new table only. */
  lemma SetRefCount(env: Env, key: nat, info: map<nat, Info>, idCount: nat, addr: map<NetAddr, nat>, triedTable: Table, id: nat, n: int)
    requires AddrOk(info, idCount, addr) && TriedOk(env, key, info, triedTable) && id in info
    ensures var r := info[id := info[id].(refCount := n)];
            r.Keys == info.Keys && AddrOk(r, idCount, addr) && TriedOk(env, key, r, triedTable)
  {
  }

  lemma SetRefCountCounts(info: map<nat, Info>, newCount: int, triedCount: int, id: nat, n: int, limbo: set<nat>)
    requires CountsOk(info, newCount, triedCount, limbo) && id in info
    ensures CountsOk(info[id := info[id].(refCount := n)], newCount, triedCount, limbo)
  {
    var r := info[id := info[id].(refCount := n)];
    assert NewIds(r, limbo) == NewIds(info, limbo);
    assert TriedIds(r) == TriedIds(info);
  }

  lemma SlotHolder(env: Env, key: nat, info: map<nat, Info>, newTable: Table, limbo: set<nat>, slot: Slot)
    requires NewOk(env, key, info, newTable, limbo) && slot in newTable
    ensures newTable[slot] in info && !info[newTable[slot]].inTried && newTable[slot] !in limbo
  {
  }

  lemma VacateKeeps(env: Env, s: State, slot: Slot, limbo: set<nat>)
    requires Weak(env, s, limbo) && slot in s.newTable
    ensures var id := s.newTable[slot];
            && id in s.info && !s.info[id].inTried && s.info[id].refCount > 0 && id !in limbo
            && Weak(env, Vacate(s, slot), limbo)
  {
    var id := s.newTable[slot];
    SlotHolder(env, s.key, s.info, s.newTable, limbo, slot);
    hide RandomOk, AddrOk, NewOk, TriedOk, CountsOk;
    Unslot(env, s.key, s.info, s.newTable, limbo, slot);
    SetRefCount(env, s.key, s.info, s.idCount, s.addr, s.triedTable, id, s.info[id].refCount - 1);
    SetRefCountCounts(s.info, s.newCount, s.triedCount, id, s.info[id].refCount - 1, limbo);
  }

  /** The id in a slot has an entry with a position, which is what ClearNew relies on. */
  lemma SlotIsIndexed(env: Env, s: State, slot: Slot, limbo: set<nat>)
    requires Weak(env, s, limbo) && slot in s.newTable
    ensures s.newTable[slot] in s.info && s.newTable[slot] in s.pos && s.pos[s.newTable[slot]] < |s.random|
  {
    hide RandomOk, AddrOk, NewOk, TriedOk, CountsOk;
    SlotHolder(env, s.key, s.info, s.newTable, limbo, slot);
    IsIndexed(s.info.Keys, s.pos, s.random, s.newTable[slot]);
  }

  lemma ClearNewKeeps(env: Env, s: State, slot: Slot, limbo: set<nat>)
    requires Weak(env, s, limbo)
    ensures slot in s.newTable ==> s.newTable[slot] in s.info && s.newTable[slot] in s.pos && s.pos[s.newTable[slot]] < |s.random|
    ensures Weak(env, ClearNew(s, slot), limbo)
  {
    hide Weak;
    if slot in s.newTable {
      SlotIsIndexed(env, s, slot, limbo);
      VacateKeeps(env, s, slot, limbo);
      if s.info[s.newTable[slot]].refCount == 1 {
        DeleteKeeps(env, Vacate(s, slot), s.newTable[slot], limbo);
      }
    }
  }

  /** ClearNew touches one entry and nothing outside the new table. */
  lemma ClearNewFrame(env: Env, s: State, slot: Slot, limbo: set<nat>)
    requires Weak(env, s, limbo)
    requires slot in s.newTable ==> s.newTable[slot] in s.info && s.newTable[slot] in s.pos && s.pos[s.newTable[slot]] < |s.random|
    ensures var r := ClearNew(s, slot);
            && r.key == s.key && r.triedTable == s.triedTable && r.triedCount == s.triedCount && r.idCount == s.idCount
            && r.newTable == s.newTable - {slot} && r.info.Keys <= s.info.Keys
    ensures forall j :: j in s.info && !(slot in s.newTable && s.newTable[slot] == j) ==>
              j in ClearNew(s, slot).info && ClearNew(s, slot).info[j] == s.info[j]
  {
    hide Weak;
    if slot !in s.newTable {
      assert s.newTable - {slot} == s.newTable;
    }
  }

  lemma ClearNewReferenced(s: State, slot: Slot, except: set<nat>)
    requires slot in s.newTable ==> s.newTable[slot] in s.info && s.newTable[slot] in s.pos && s.pos[s.newTable[slot]] < |s.random|
    requires slot in s.newTable ==> s.info[s.newTable[slot]].refCount > 0
    requires Referenced(s.info, except)
    ensures Referenced(ClearNew(s, slot).info, except)
  {
  }
}
