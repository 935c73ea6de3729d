/** The operations of the address manager as functions on its state: MakeTried, Good_, Attempt_
    and Connected_ in src/addrman.cpp, and what they keep at which times.
    An eviction from the tried table is its own step: it can cost one new entry, and only one. */
module AddrOps {
  import opened AddrState
  import opened AddrMoves

  // ---------- MakeTried ----------

  /** The eviction in MakeTried: the entry in an occupied slot of the tried table goes back to the new table. */
  function Evict(env: Env, s: State, slot: Slot, ghost limbo: set<nat>): State
    requires Weak(env, s, limbo) && slot in s.triedTable
  {
    EvictSteps(env, s, slot, limbo);
    var id := s.triedTable[slot];
    var to := NewSlot(env, s.key, s.info[id].service, s.info[id].source);
    var cleared := ClearNew(Untry(s, slot), to);
    PutNew(cleared, id, to).(newCount := cleared.newCount + 1)
  }

  /** The steps of an eviction; the evicted id is in limbo meanwhile. */
  lemma EvictSteps(env: Env, s: State, slot: Slot, limbo: set<nat>)
    requires Weak(env, s, limbo) && slot in s.triedTable
    ensures s.triedTable[slot] in s.info && s.info[s.triedTable[slot]].inTried && s.triedTable[slot] !in limbo
    ensures var id := s.triedTable[slot];
            var out := Untry(s, slot);
            var to := NewSlot(env, s.key, s.info[id].service, s.info[id].source);
            && (to in out.newTable ==> out.newTable[to] in out.info && out.newTable[to] in out.pos && out.pos[out.newTable[to]] < |out.random|
                                       && out.newTable[to] !in limbo + {id} && out.info[out.newTable[to]].refCount > 0)
            && Weak(env, out, limbo + {id})
            && id in ClearNew(out, to).info && ClearNew(out, to).info[id] == out.info[id]
            && Weak(env, ClearNew(out, to), limbo + {id})
            && out.info[id].refCount == 0
  {
    hide Weak;
    UntryKeeps(env, s, slot, limbo);
    var id := s.triedTable[slot];
    var out := Untry(s, slot);
    var to := NewSlot(env, s.key, s.info[id].service, s.info[id].source);
    LimboIsUntried(env, s, limbo, id);
    LimboHasNoSlots(env, out, limbo + {id}, id);
    if to in out.newTable {
      SlotIsIndexed(env, out, to, limbo + {id});
      VacateKeeps(env, out, to, limbo + {id});
    }
    ClearNewKeeps(env, out, to, limbo + {id});
    ClearNewFrame(env, out, to, limbo + {id});
  }

  lemma LimboIsUntried(env: Env, s: State, limbo: set<nat>, id: nat)
    requires Weak(env, s, limbo) && id in s.info && s.info[id].inTried
    ensures id !in limbo
  {
    hide RandomOk, AddrOk, TriedOk, CountsOk;
  }

  lemma LimboHasNoSlots(env: Env, s: State, limbo: set<nat>, id: nat)
    requires Weak(env, s, limbo) && id in limbo
    ensures id in s.info && s.info[id].refCount == 0 && !s.info[id].inTried
  {
    hide RandomOk, AddrOk, TriedOk, CountsOk;
    assert SlotsOf(s.newTable, id) == {};
  }

  /** An eviction keeps the invariant; it frees the slot, keeps the evicted entry as a new one, and touches
      at most one other entry, a new one that may be forgotten. */
  lemma EvictKeeps(env: Env, s: State, slot: Slot, limbo: set<nat>)
    requires Weak(env, s, limbo) && slot in s.triedTable
    ensures var r := Evict(env, s, slot, limbo);
            && Weak(env, r, limbo)
            && r.triedTable == s.triedTable - {slot} && r.key == s.key
            && s.triedTable[slot] in s.info && s.triedTable[slot] in r.info
            && r.info[s.triedTable[slot]] == s.info[s.triedTable[slot]].(inTried := false, refCount := 1)
            && (Referenced(s.info, limbo) ==> Referenced(r.info, limbo))
    ensures OneNewLost(s.info, Evict(env, s, slot, limbo).info, limbo + {s.triedTable[slot]})
  {
    hide Weak;
    EvictSteps(env, s, slot, limbo);
    var id := s.triedTable[slot];
    var out := Untry(s, slot);
    var to := NewSlot(env, s.key, s.info[id].service, s.info[id].source);
    ClearNewFrame(env, out, to, limbo + {id});
    if Referenced(s.info, limbo) {
      ClearNewReferenced(out, to, limbo + {id});
    }
    PutNewKeeps(env, ClearNew(out, to), id, to, limbo + {id});
    assert limbo + {id} - {id} == limbo;
    if to in out.newTable {
      SlotHolderUntried(env, out, to, limbo + {id});
      assert LostOnly(s.info, Evict(env, s, slot, limbo).info, limbo + {id}, out.newTable[to]);
    } else {
      assert LostOnly(s.info, Evict(env, s, slot, limbo).info, limbo + {id}, id);
    }
  }

  lemma SlotHolderUntried(env: Env, s: State, slot: Slot, limbo: set<nat>)
    requires Weak(env, s, limbo) && slot in s.newTable
    ensures s.newTable[slot] in s.info && !s.info[s.newTable[slot]].inTried && s.newTable[slot] !in limbo
  {
    hide RandomOk, AddrOk, NewOk, TriedOk, CountsOk;
    SlotHolder(env, s.key, s.info, s.newTable, limbo, slot);
  }

  /** Outside `moved`, only entry x may have changed: it was new, and it lost one reference or is gone. */
  ghost predicate LostOnly(before: map<nat, Info>, after: map<nat, Info>, moved: set<nat>, x: nat) {
    && after.Keys <= before.Keys
    && (forall j :: j in before && j != x && j !in moved ==> j in after && after[j] == before[j])
    && (x in before && x !in moved ==>
          && !before[x].inTried
          && if before[x].refCount == 1 then x !in after
             else x in after && after[x] == before[x].(refCount := before[x].refCount - 1))
  }

  /** At most one entry outside `moved` changed. */
  ghost predicate OneNewLost(before: map<nat, Info>, after: map<nat, Info>, moved: set<nat>) {
    exists x :: LostOnly(before, after, moved, x)
  }

  /** MakeTried. */
  function MakeTried(env: Env, s: State, id: nat): State
    requires Weak(env, s, {}) && id in s.info && !s.info[id].inTried
  {
    TakeOutKeeps(env, s, id, {});
    assert {} + {id} == {id};
    var out := TakeOut(s, id);
    var slot := TriedSlot(env, s.key, s.info[id].service);
    RoomKeepsId(env, out, id, slot);
    PutTried(env, if slot in out.triedTable then Evict(env, out, slot, {id}) else out, id)
  }

  lemma RoomKeepsId(env: Env, out: State, id: nat, slot: Slot)
    requires Weak(env, out, {id})
    ensures slot in out.triedTable ==> id in Evict(env, out, slot, {id}).info
    ensures id in out.info
  {
    hide Weak;
    LimboHasNoSlots(env, out, {id}, id);
    if slot in out.triedTable {
      EvictKeeps(env, out, slot, {id});
      LimboHasNoSlots(env, Evict(env, out, slot, {id}), {id}, id);
    }
  }

  /** What MakeTried does to the entries and the tried table. */
  ghost predicate MovedToTried(env: Env, s: State, r: State, id: nat)
    requires id in s.info
  {
    var slot := TriedSlot(env, s.key, s.info[id].service);
    && r.triedTable == s.triedTable[slot := id]
    && id in r.info && r.info[id] == s.info[id].(refCount := 0, inTried := true)
    && if slot in s.triedTable then
         var gone := s.triedTable[slot];
         && gone in s.info && gone in r.info && r.info[gone] == s.info[gone].(inTried := false, refCount := 1)
         && OneNewLost(s.info, r.info, {id, gone})
       else OneNewLost(s.info, r.info, {id})
  }

  lemma MakeTriedFree(env: Env, s: State, id: nat)
    requires Weak(env, s, {}) && Referenced(s.info, {}) && id in s.info && !s.info[id].inTried
    requires TriedSlot(env, s.key, s.info[id].service) !in s.triedTable
    ensures var r := MakeTried(env, s, id);
            Weak(env, r, {}) && Referenced(r.info, {}) && MovedToTried(env, s, r, id)
  {
    hide Weak;
    TakeOutKeeps(env, s, id, {});
    assert {} + {id} == {id};
    assert {id} - {id} == {};
    PutTriedKeeps(env, TakeOut(s, id), id, {id});
    assert LostOnly(s.info, MakeTried(env, s, id).info, {id}, id);
  }

  lemma MakeTriedEvicting(env: Env, s: State, id: nat)
    requires Weak(env, s, {}) && Referenced(s.info, {}) && id in s.info && !s.info[id].inTried
    requires TriedSlot(env, s.key, s.info[id].service) in s.triedTable
    ensures var r := MakeTried(env, s, id);
            Weak(env, r, {}) && Referenced(r.info, {}) && MovedToTried(env, s, r, id)
  {
    hide Weak, LostOnly, Evict;
    TakeOutKeeps(env, s, id, {});
    assert {} + {id} == {id};
    assert {id} - {id} == {};
    var out := TakeOut(s, id);
    var slot := TriedSlot(env, s.key, s.info[id].service);
    EvictKeeps(env, out, slot, {id});
    var gone := out.triedTable[slot];
    var room := Evict(env, out, slot, {id});
    EvictSparesLimbo(env, out, slot, id);
    PutTriedKeeps(env, room, id, {id});
    assert {id} + {gone} == {id, gone};
    var x :| LostOnly(out.info, room.info, {id, gone}, x);
    MoveIsNotLoss(s.info, room.info, id, gone, x);
    assert (s.triedTable - {slot})[slot := id] == s.triedTable[slot := id];
  }

  /** Taking an entry out before, and putting it into the tried table after, an eviction is no loss. */
  lemma MoveIsNotLoss(before: map<nat, Info>, after: map<nat, Info>, id: nat, gone: nat, x: nat)
    requires id in before && id in after
    requires LostOnly(before[id := before[id].(refCount := 0)], after, {id, gone}, x)
    ensures OneNewLost(before, after[id := after[id].(inTried := true)], {id, gone})
  {
    assert LostOnly(before, after[id := after[id].(inTried := true)], {id, gone}, x);
  }

  /** MakeTried keeps the invariant, gives the entry its tried slot, sends an evicted entry back to the new table,
      and touches at most one further entry, which was new. */
  lemma MakeTriedKeeps(env: Env, s: State, id: nat)
    requires Weak(env, s, {}) && Referenced(s.info, {}) && id in s.info && !s.info[id].inTried
    ensures var r := MakeTried(env, s, id);
            Weak(env, r, {}) && Referenced(r.info, {}) && MovedToTried(env, s, r, id)
  {
    hide *;
    if TriedSlot(env, s.key, s.info[id].service) in s.triedTable {
      MakeTriedEvicting(env, s, id);
    } else {
      MakeTriedFree(env, s, id);
    }
  }

  /** An eviction does not touch an entry in limbo. */
  lemma EvictSparesLimbo(env: Env, s: State, slot: Slot, id: nat)
    requires Weak(env, s, {id}) && slot in s.triedTable
    ensures id in s.info && id in Evict(env, s, slot, {id}).info && Evict(env, s, slot, {id}).info[id] == s.info[id]
  {
    hide Weak;
    LimboHasNoSlots(env, s, {id}, id);
    EvictSteps(env, s, slot, {id});
    var gone := s.triedTable[slot];
    var out := Untry(s, slot);
    var to := NewSlot(env, s.key, s.info[gone].service, s.info[gone].source);
    ClearNewFrame(env, out, to, {id} + {gone});
  }

  /** The new table after MakeTried: the entry has left all its slots, and an evicted entry stands in its
      own slot for the source it was first heard of from, whatever stood there before. */
  lemma MakeTriedTable(env: Env, s: State, id: nat)
    requires Weak(env, s, {}) && id in s.info && !s.info[id].inTried
    ensures var rest := map sl | sl in s.newTable && s.newTable[sl] != id :: s.newTable[sl];
            var slot := TriedSlot(env, s.key, s.info[id].service);
            && (slot in s.triedTable ==> s.triedTable[slot] in s.info)
            && MakeTried(env, s, id).newTable ==
               if slot !in s.triedTable then rest
               else var gone := s.triedTable[slot]; rest[NewSlot(env, s.key, s.info[gone].service, s.info[gone].source) := gone]
  {
    hide Weak, TriedSlot, NewSlot;
    TakeOutKeeps(env, s, id, {});
    assert {} + {id} == {id};
    var out := TakeOut(s, id);
    var slot := TriedSlot(env, s.key, s.info[id].service);
    if slot in out.triedTable {
      EvictSteps(env, out, slot, {id});
      EvictTable(env, out, slot, {id});
      assert out.info[out.triedTable[slot]].inTried;
    }
  }

  lemma EvictTable(env: Env, s: State, slot: Slot, limbo: set<nat>)
    requires Weak(env, s, limbo) && slot in s.triedTable
    ensures s.triedTable[slot] in s.info
    ensures var id := s.triedTable[slot];
      Evict(env, s, slot, limbo).newTable == s.newTable[NewSlot(env, s.key, s.info[id].service, s.info[id].source) := id]
  {
    hide Weak, NewSlot;
    EvictSteps(env, s, slot, limbo);
    var id := s.triedTable[slot];
    var to := NewSlot(env, s.key, s.info[id].service, s.info[id].source);
    ClearNewFrame(env, Untry(s, slot), to, limbo + {id});
    assert (s.newTable - {to})[to := id] == s.newTable[to := id];
  }

  // ---------- Time stamps ----------

  /** An update of an entry that leaves its address, its reference count and its table alone. */
  predicate SameStanding(a: Info, b: Info) {
    a.service == b.service && a.refCount == b.refCount && a.inTried == b.inTried
  }

  function Restamp(s: State, id: nat, i: Info): State {
    s.(info := s.info[id := i])
  }

  lemma RestampNew(env: Env, key: nat, info: map<nat, Info>, newTable: Table, limbo: set<nat>, id: nat, i: Info)
    requires NewOk(env, key, info, newTable, limbo) && id in info && SameStanding(info[id], i)
    ensures NewOk(env, key, info[id := i], newTable, limbo)
  {
  }

  lemma RestampTried(env: Env, key: nat, info: map<nat, Info>, triedTable: Table, id: nat, i: Info)
    requires TriedOk(env, key, info, triedTable) && id in info && SameStanding(info[id], i)
    ensures TriedOk(env, key, info[id := i], triedTable)
  {
  }

  lemma RestampRest(info: map<nat, Info>, idCount: nat, addr: map<NetAddr, nat>, newCount: int, triedCount: int,
                    limbo: set<nat>, id: nat, i: Info)
    requires AddrOk(info, idCount, addr) && CountsOk(info, newCount, triedCount, limbo)
    requires id in info && SameStanding(info[id], i)
    ensures info[id := i].Keys == info.Keys
    ensures AddrOk(info[id := i], idCount, addr) && CountsOk(info[id := i], newCount, triedCount, limbo)
  {
    assert NewIds(info[id := i], limbo) == NewIds(info, limbo);
    assert TriedIds(info[id := i]) == TriedIds(info);
  }

  lemma RestampKeeps(env: Env, s: State, id: nat, i: Info, limbo: set<nat>)
    requires Weak(env, s, limbo) && id in s.info && SameStanding(s.info[id], i)
    ensures Weak(env, Restamp(s, id, i), limbo)
  {
    hide RandomOk, AddrOk, NewOk, TriedOk, CountsOk;
    RestampNew(env, s.key, s.info, s.newTable, limbo, id, i);
    RestampTried(env, s.key, s.info, s.triedTable, id, i);
    RestampRest(s.info, s.idCount, s.addr, s.newCount, s.triedCount, limbo, id, i);
  }

  /** Does the manager know exactly this service, port included? */
  predicate Matches(s: State, service: Service) {
    Knows(s, service.addr) && s.info[s.addr[service.addr]].service == service
  }

  /** Attempt_: notes a connection attempt. */
  function Attempt(s: State, service: Service, time: int): State {
    if !Matches(s, service) then s
    else
      var id := s.addr[service.addr];
      Restamp(s, id, s.info[id].(lastTry := time, attempts := s.info[id].attempts + 1))
  }

  /** Connected_: refreshes the time an address was seen. */
  function Connected(s: State, service: Service, time: nat): State {
    if !Matches(s, service) then s
    else
      var id := s.addr[service.addr];
      if time - s.info[id].time > 20 * 60 then Restamp(s, id, s.info[id].(time := time)) else s
  }

  /** An attempt keeps the tables consistent at any time; the time stamps stay valid iff the address is
      unknown or the time is not negative. */
  lemma AttemptKeeps(env: Env, s: State, service: Service, time: int)
    requires Inv(env, s)
    ensures Sound(env, Attempt(s, service, time))
    ensures Inv(env, Attempt(s, service, time)) <==> (!Matches(s, service) || time >= 0)
  {
    hide Weak;
    if Matches(s, service) {
      var id := s.addr[service.addr];
      RestampKeeps(env, s, id, s.info[id].(lastTry := time, attempts := s.info[id].attempts + 1), {});
      assert Attempt(s, service, time).info[id].lastTry == time;
    }
  }

  lemma ConnectedKeeps(env: Env, s: State, service: Service, time: nat)
    requires Inv(env, s)
    ensures Inv(env, Connected(s, service, time))
  {
    hide Weak;
    if Matches(s, service) {
      var id := s.addr[service.addr];
      RestampKeeps(env, s, id, s.info[id].(time := time), {});
    }
  }

  // ---------- Good ----------

  /** The stamps Good_ sets before it looks at the tables. */
  function MarkGood(s: State, id: nat, time: int): State
    requires id in s.info
  {
    Restamp(s, id, s.info[id].(lastSuccess := time, lastTry := time, attempts := 0))
  }

  /** Good_: marks a service as accessible and moves it to the tried table. */
  function Good(env: Env, s: State, service: Service, time: int): State
    requires Sound(env, s)
  {
    if !Matches(s, service) then s
    else
      var id := s.addr[service.addr];
      var marked := MarkGood(s, id, time);
      if marked.info[id].inTried then marked
      else
        RestampKeeps(env, s, id, marked.info[id], {});
        MakeTried(env, marked, id)
  }

  lemma StatsAfterMove(s: State, r: State, id: nat, gone: nat)
    requires id in s.info && id in r.info && r.info[id].lastTry == s.info[id].lastTry && r.info[id].lastSuccess == s.info[id].lastSuccess
    requires r.info[id].inTried
    requires forall j :: j in s.info && j != id ==>
      s.info[j].lastTry >= 0 && s.info[j].lastSuccess >= 0 && (s.info[j].inTried ==> s.info[j].lastSuccess != 0)
    requires gone != id && gone in s.info ==> gone in r.info && r.info[gone] == s.info[gone].(inTried := false, refCount := 1)
    requires OneNewLost(s.info, r.info, {id, gone})
    ensures StatsOk(r.info) <==> r.info[id].lastTry >= 0 && r.info[id].lastSuccess > 0
  {
    var x :| LostOnly(s.info, r.info, {id, gone}, x);
    forall j | j in r.info && j != id
      ensures r.info[j].lastTry >= 0 && r.info[j].lastSuccess >= 0 && (r.info[j].inTried ==> r.info[j].lastSuccess != 0)
    {
      if j == gone || j == x {
      } else {
        assert r.info[j] == s.info[j];
      }
    }
  }

  /** Marking a service good keeps the tables consistent at any time. The time stamps stay valid, and so the
      whole invariant holds, iff the service is unknown or the time is positive. */
  lemma GoodKeeps(env: Env, s: State, service: Service, time: int)
    requires Inv(env, s)
    ensures Sound(env, Good(env, s, service, time))
    ensures Inv(env, Good(env, s, service, time)) <==> (!Matches(s, service) || time > 0)
  {
    hide Weak, LostOnly;
    if Matches(s, service) {
      var id := s.addr[service.addr];
      var marked := MarkGood(s, id, time);
      RestampKeeps(env, s, id, marked.info[id], {});
      var r := Good(env, s, service, time);
      if marked.info[id].inTried {
        assert r.info[id].lastSuccess == time;
      } else {
        MakeTriedKeeps(env, marked, id);
        var slot := TriedSlot(env, marked.key, marked.info[id].service);
        if slot in marked.triedTable {
          StatsAfterMove(marked, r, id, marked.triedTable[slot]);
        } else {
          assert {id, id} == {id};
          StatsAfterMove(marked, r, id, id);
        }
      }
    }
  }

  /** What Good_ achieves: a known service ends up in the tried table, last tried and reached at the given
      time and without failed attempts; when it was there already nothing but these stamps changes. */
  lemma GoodMoves(env: Env, s: State, service: Service, time: int)
    requires Sound(env, s) && Matches(s, service)
    ensures var r, id := Good(env, s, service, time), s.addr[service.addr];
            var i := s.info[id].(lastSuccess := time, lastTry := time, attempts := 0);
            && i.service == service
            && (i.inTried ==> r == s.(info := s.info[id := i]))
            && (!i.inTried ==> id in r.info && r.info[id] == i.(refCount := 0, inTried := true) && MovedToTried(env, s.(info := s.info[id := i]), r, id))
  {
    hide Weak, LostOnly;
    var id := s.addr[service.addr];
    var marked := MarkGood(s, id, time);
    RestampKeeps(env, s, id, marked.info[id], {});
    if !marked.info[id].inTried {
      MakeTriedKeeps(env, marked, id);
    }
  }

  /** And which slots of the new table change. */
  lemma GoodTable(env: Env, s: State, service: Service, time: int)
    requires Sound(env, s) && Matches(s, service) && !s.info[s.addr[service.addr]].inTried
    ensures var id := s.addr[service.addr];
            var rest, slot := map sl | sl in s.newTable && s.newTable[sl] != id :: s.newTable[sl], TriedSlot(env, s.key, service);
            && (slot in s.triedTable ==> s.triedTable[slot] in s.info)
            && Good(env, s, service, time).newTable ==
               if slot !in s.triedTable then rest
               else var gone := s.triedTable[slot]; rest[NewSlot(env, s.key, s.info[gone].service, s.info[gone].source) := gone]
  {
    hide Weak, TriedSlot, NewSlot, MakeTried;
    var id := s.addr[service.addr];
    var marked := MarkGood(s, id, time);
    RestampKeeps(env, s, id, marked.info[id], {});
    MakeTriedTable(env, marked, id);
  }
}
