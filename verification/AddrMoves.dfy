/** How entries move between the new and the tried table: the steps MakeTried and Add_
    in src/addrman.cpp are made of.
    An entry on its way is in limbo: in neither table, and not counted.
    Each step keeps the invariant with the limbo it leaves. */
module AddrMoves {
  import opened AddrState

  /** Removes an entry from all slots of the new table: the first part of MakeTried. */
  function TakeOut(s: State, id: nat): State
    requires id in s.info
  {
    s.(info := s.info[id := s.info[id].(refCount := 0)],
       newTable := map sl | sl in s.newTable && s.newTable[sl] != id :: s.newTable[sl],
       newCount := s.newCount - 1)
  }

  lemma TakeOutNew(env: Env, key: nat, info: map<nat, Info>, newTable: Table, limbo: set<nat>, id: nat)
    requires NewOk(env, key, info, newTable, limbo) && id in info && !info[id].inTried
    ensures NewOk(env, key, info[id := info[id].(refCount := 0)],
                  map sl | sl in newTable && newTable[sl] != id :: newTable[sl], limbo + {id})
  {
    hide SlotsOf;
    SlotsAfterRemoval(newTable, id);
  }

  lemma SlotsAfterRemoval(table: Table, id: nat)
    ensures var rest := map sl | sl in table && table[sl] != id :: table[sl];
      |SlotsOf(rest, id)| == 0 && forall j {:trigger SlotsOf(rest, j)} :: j != id ==> SlotsOf(rest, j) == SlotsOf(table, j)
  {
    var rest := map sl | sl in table && table[sl] != id :: table[sl];
    assert SlotsOf(rest, id) == {};
    forall j: nat | j != id ensures SlotsOf(rest, j) == SlotsOf(table, j) {
    }
  }

  lemma LimboCounts(info: map<nat, Info>, newCount: int, triedCount: int, limbo: set<nat>, id: nat)
    requires CountsOk(info, newCount, triedCount, limbo) && id in info && !info[id].inTried && id !in limbo
    ensures CountsOk(info, newCount - 1, triedCount, limbo + {id})
  {
    assert NewIds(info, limbo + {id}) == NewIds(info, limbo) - {id};
    assert id in NewIds(info, limbo);
  }

  lemma TakeOutKeeps(env: Env, s: State, id: nat, limbo: set<nat>)
    requires Weak(env, s, limbo) && id in s.info && !s.info[id].inTried && id !in limbo
    ensures Weak(env, TakeOut(s, id), limbo + {id})
  {
    hide RandomOk, AddrOk, NewOk, TriedOk, CountsOk;
    TakeOutNew(env, s.key, s.info, s.newTable, limbo, id);
    SetRefCount(env, s.key, s.info, s.idCount, s.addr, s.triedTable, id, 0);
    SetRefCountCounts(s.info, s.newCount, s.triedCount, id, 0, limbo);
    LimboCounts(s.info[id := s.info[id].(refCount := 0)], s.newCount, s.triedCount, limbo, id);
  }

  /** Removes the entry in an occupied slot of the tried table: the first part of the eviction in MakeTried. */
  function Untry(s: State, slot: Slot): State
    requires slot in s.triedTable && s.triedTable[slot] in s.info
  {
    var id := s.triedTable[slot];
    s.(info := s.info[id := s.info[id].(inTried := false)], triedTable := s.triedTable - {slot}, triedCount := s.triedCount - 1)
  }

  lemma UntryNew(env: Env, key: nat, info: map<nat, Info>, newTable: Table, limbo: set<nat>, id: nat)
    requires NewOk(env, key, info, newTable, limbo) && id in info && info[id].inTried
    ensures NewOk(env, key, info[id := info[id].(inTried := false)], newTable, limbo + {id})
  {
  }

  lemma UntryTried(env: Env, key: nat, info: map<nat, Info>, triedTable: Table, slot: Slot)
    requires TriedOk(env, key, info, triedTable) && slot in triedTable
    ensures var id := triedTable[slot];
            && id in info && info[id].inTried
            && TriedOk(env, key, info[id := info[id].(inTried := false)], triedTable - {slot})
  {
  }

  lemma UntryRest(info: map<nat, Info>, idCount: nat, addr: map<NetAddr, nat>, id: nat)
    requires AddrOk(info, idCount, addr) && id in info
    ensures var r := info[id := info[id].(inTried := false)];
            r.Keys == info.Keys && AddrOk(r, idCount, addr)
  {
  }

  lemma UntryCounts(info: map<nat, Info>, newCount: int, triedCount: int, limbo: set<nat>, id: nat)
    requires CountsOk(info, newCount, triedCount, limbo) && id in info && info[id].inTried
    ensures CountsOk(info[id := info[id].(inTried := false)], newCount, triedCount - 1, limbo + {id})
  {
    var r := info[id := info[id].(inTried := false)];
    assert NewIds(r, limbo + {id}) == NewIds(info, limbo);
    assert TriedIds(r) == TriedIds(info) - {id};
    assert id in TriedIds(info);
  }

  lemma UntryKeeps(env: Env, s: State, slot: Slot, limbo: set<nat>)
    requires Weak(env, s, limbo) && slot in s.triedTable
    ensures s.triedTable[slot] in s.info && s.info[s.triedTable[slot]].inTried
    ensures Weak(env, Untry(s, slot), limbo + {s.triedTable[slot]})
  {
    hide RandomOk, AddrOk, NewOk, TriedOk, CountsOk;
    var id := s.triedTable[slot];
    UntryTried(env, s.key, s.info, s.triedTable, slot);
    UntryNew(env, s.key, s.info, s.newTable, limbo, id);
    UntryRest(s.info, s.idCount, s.addr, id);
    UntryCounts(s.info, s.newCount, s.triedCount, limbo, id);
  }

  /** Puts an entry into a free slot of the new table. */
  function PutNew(s: State, id: nat, slot: Slot): State
    requires id in s.info
  {
    s.(info := s.info[id := s.info[id].(refCount := s.info[id].refCount + 1)], newTable := s.newTable[slot := id])
  }

  predicate NewSlotFor(env: Env, key: nat, i: Info, slot: Slot) {
    slot.bucket < NEW_BUCKET_COUNT && slot.pos == env.position(key, i.service, true, slot.bucket)
  }

  lemma PutNewNew(env: Env, key: nat, info: map<nat, Info>, newTable: Table, limbo: set<nat>, id: nat, slot: Slot)
    requires NewOk(env, key, info, newTable, limbo) && id in info && !info[id].inTried
    requires slot !in newTable && NewSlotFor(env, key, info[id], slot) && info[id].refCount < NEW_BUCKETS_PER_ADDRESS
    ensures NewOk(env, key, info[id := info[id].(refCount := info[id].refCount + 1)], newTable[slot := id], limbo - {id})
  {
    hide SlotsOf;
    SlotsAfterPut(newTable, id, slot);
  }

  lemma SlotsAfterPut(table: Table, id: nat, slot: Slot)
    requires slot !in table
    ensures var more := table[slot := id];
      |SlotsOf(more, id)| == |SlotsOf(table, id)| + 1
      && forall j {:trigger SlotsOf(more, j)} :: j != id ==> SlotsOf(more, j) == SlotsOf(table, j)
  {
    var more := table[slot := id];
    assert SlotsOf(more, id) == SlotsOf(table, id) + {slot};
    forall j: nat | j != id ensures SlotsOf(more, j) == SlotsOf(table, j) {
    }
  }

  lemma UnlimboCounts(info: map<nat, Info>, newCount: int, triedCount: int, limbo: set<nat>, id: nat)
    requires CountsOk(info, newCount, triedCount, limbo) && id in info && !info[id].inTried && id in limbo
    ensures CountsOk(info, newCount + 1, triedCount, limbo - {id})
  {
    assert NewIds(info, limbo - {id}) == NewIds(info, limbo) + {id};
  }

  lemma PutNewKeeps(env: Env, s: State, id: nat, slot: Slot, limbo: set<nat>)
    requires Weak(env, s, limbo) && id in s.info && !s.info[id].inTried && s.info[id].refCount < NEW_BUCKETS_PER_ADDRESS
    requires slot !in s.newTable && NewSlotFor(env, s.key, s.info[id], slot)
    ensures id !in limbo ==> Weak(env, PutNew(s, id, slot), limbo)
    ensures id in limbo ==> Weak(env, PutNew(s, id, slot).(newCount := s.newCount + 1), limbo - {id})
  {
    hide RandomOk, AddrOk, NewOk, TriedOk, CountsOk;
    var n := s.info[id].refCount + 1;
    PutNewNew(env, s.key, s.info, s.newTable, limbo, id, slot);
    SetRefCount(env, s.key, s.info, s.idCount, s.addr, s.triedTable, id, n);
    SetRefCountCounts(s.info, s.newCount, s.triedCount, id, n, limbo);
    if id in limbo {
      UnlimboCounts(s.info[id := s.info[id].(refCount := n)], s.newCount, s.triedCount, limbo, id);
    } else {
      assert limbo - {id} == limbo;
    }
  }

  /** Puts an entry into its free slot of the tried table: the last part of MakeTried. */
  function PutTried(env: Env, s: State, id: nat): State
    requires id in s.info
  {
    s.(info := s.info[id := s.info[id].(inTried := true)],
       triedTable := s.triedTable[TriedSlot(env, s.key, s.info[id].service) := id], triedCount := s.triedCount + 1)
  }

  lemma PutTriedNew(env: Env, key: nat, info: map<nat, Info>, newTable: Table, limbo: set<nat>, id: nat)
    requires NewOk(env, key, info, newTable, limbo) && id in limbo
    ensures id in info && !info[id].inTried && NewOk(env, key, info[id := info[id].(inTried := true)], newTable, limbo - {id})
  {
  }

  lemma PutTriedTried(env: Env, key: nat, info: map<nat, Info>, triedTable: Table, id: nat)
    requires TriedOk(env, key, info, triedTable) && id in info && !info[id].inTried
    requires TriedSlot(env, key, info[id].service) !in triedTable
    ensures TriedOk(env, key, info[id := info[id].(inTried := true)], triedTable[TriedSlot(env, key, info[id].service) := id])
  {
  }

  lemma PutTriedRest(info: map<nat, Info>, idCount: nat, addr: map<NetAddr, nat>, id: nat)
    requires AddrOk(info, idCount, addr) && id in info
    ensures var r := info[id := info[id].(inTried := true)];
            r.Keys == info.Keys && AddrOk(r, idCount, addr)
  {
  }

  lemma PutTriedCounts(info: map<nat, Info>, newCount: int, triedCount: int, limbo: set<nat>, id: nat)
    requires CountsOk(info, newCount, triedCount, limbo) && id in info && !info[id].inTried && id in limbo
    ensures CountsOk(info[id := info[id].(inTried := true)], newCount, triedCount + 1, limbo - {id})
  {
    var r := info[id := info[id].(inTried := true)];
    assert NewIds(r, limbo - {id}) == NewIds(info, limbo);
    assert TriedIds(r) == TriedIds(info) + {id};
  }

  lemma PutTriedKeeps(env: Env, s: State, id: nat, limbo: set<nat>)
    requires Weak(env, s, limbo) && id in limbo && id in s.info
    requires TriedSlot(env, s.key, s.info[id].service) !in s.triedTable
    ensures Weak(env, PutTried(env, s, id), limbo - {id})
  {
    hide RandomOk, AddrOk, NewOk, TriedOk, CountsOk;
    PutTriedNew(env, s.key, s.info, s.newTable, limbo, id);
    PutTriedTried(env, s.key, s.info, s.triedTable, id);
    PutTriedRest(s.info, s.idCount, s.addr, id);
    PutTriedCounts(s.info, s.newCount, s.triedCount, limbo, id);
  }
}
