/** Adding addresses and handing them out, and runs of all operations: src/addrman.cpp. */
module AddrAdd {
  import opened Basics
  import opened AddrState
  import opened AddrMoves
  import opened AddrOps

  const GETADDR_MAX_PCT: nat := 23
  const GETADDR_MAX: nat := 2500

  /** IsTerrible: statistics so bad that the entry may be dropped. */
  predicate IsTerrible(i: Info, now: int) {
    if i.lastTry != 0 && i.lastTry >= now - 60 then false
    else if i.time > now + 10 * 60 then true
    else if i.time == 0 || now - i.time > HORIZON_DAYS * DAY then true
    else if i.lastSuccess == 0 && i.attempts >= RETRIES then true
    else now - i.lastSuccess > MIN_FAIL_DAYS * DAY && i.attempts >= MAX_FAILURES
  }

  /** An entry never reached is terrible once it has been tried three times and the last try is a minute
      past, however fresh its announcement. */
  lemma AttemptsTerrible(s: State, service: Service, t1: int, t2: int, t3: int, now: int)
    requires Matches(s, service) && s.info[s.addr[service.addr]].lastSuccess == 0 && s.info[s.addr[service.addr]].attempts >= 0
    requires 0 < t3 < now - 60
    ensures var r := Attempt(Attempt(Attempt(s, service, t1), service, t2), service, t3);
      s.addr[service.addr] in r.info && IsTerrible(r.info[s.addr[service.addr]], now)
  {
  }

  /** A connection brings the time of the entry to within twenty minutes, never back, and changes nothing else. */
  lemma ConnectedRefreshes(s: State, service: Service, time: nat)
    requires Matches(s, service)
    ensures var r, id := Connected(s, service, time), s.addr[service.addr];
      && id in r.info && r == s.(info := s.info[id := s.info[id].(time := r.info[id].time)])
      && (s.info[id].time + 1200 < time ==> r.info[id].time == time)
      && (s.info[id].time + 1200 >= time ==> r.info[id].time == s.info[id].time)
  {
    assert s.info[s.addr[service.addr] := s.info[s.addr[service.addr]]] == s.info;
  }

  /** An entry just reached is not terrible within a minute, and afterwards only for the age of its
      announcement, until further tries fail. */
  lemma GoodNotTerrible(env: Env, s: State, service: Service, time: int, now: int)
    requires Sound(env, s) && Matches(s, service) && time > 0
    ensures var id := s.addr[service.addr];
      && id in Good(env, s, service, time).info
      && var i := Good(env, s, service, time).info[id];
      && (now <= time + 60 ==> !IsTerrible(i, now))
      && (now - HORIZON_DAYS * DAY <= i.time <= now + 10 * 60 && i.time != 0 ==> !IsTerrible(i, now))
  {
    hide Sound;
    GoodMoves(env, s, service, time);
  }

  // ---------- Add_ ----------

  /** An untried entry for which Add_ looks for a slot; only a freshly created one may have no reference yet. */
  ghost predicate Placeable(env: Env, s: State, id: nat) {
    && Weak(env, s, {}) && id in s.info && !s.info[id].inTried
    && s.info[id].refCount < NEW_BUCKETS_PER_ADDRESS && Referenced(s.info, {id})
  }

  /** May the entry in this slot be overwritten by entry id? */
  predicate MayOverwrite(s: State, slot: Slot, id: nat, now: int)
    requires id in s.info && slot in s.newTable && s.newTable[slot] in s.info
  {
    var existing := s.info[s.newTable[slot]];
    IsTerrible(existing, now) || (existing.refCount > 1 && s.info[id].refCount == 0)
  }

  /** The last part of Add_: puts the entry into its slot of the new table, or gives up. */
  function Place(env: Env, s: State, id: nat, source: NetAddr, now: int): State
    requires Placeable(env, s, id)
  {
    var slot := NewSlot(env, s.key, s.info[id].service, source);
    PlaceDefined(env, s, id, slot);
    if slot in s.newTable && s.newTable[slot] == id then s
    else if slot !in s.newTable || MayOverwrite(s, slot, id, now) then PutNew(ClearNew(s, slot), id, slot)
    else if s.info[id].refCount == 0 then Delete(s, id)
    else s
  }

  lemma RefCountBounds(env: Env, key: nat, info: map<nat, Info>, newTable: Table, limbo: set<nat>, id: nat)
    requires NewOk(env, key, info, newTable, limbo) && id in info
    ensures 0 <= info[id].refCount <= NEW_BUCKETS_PER_ADDRESS
  {
  }

  lemma RefCountInRange(env: Env, s: State, limbo: set<nat>, id: nat)
    requires Weak(env, s, limbo) && id in s.info
    ensures 0 <= s.info[id].refCount <= NEW_BUCKETS_PER_ADDRESS
  {
    hide RandomOk, AddrOk, NewOk, TriedOk, CountsOk;
    RefCountBounds(env, s.key, s.info, s.newTable, limbo, id);
  }

  lemma PlaceDefined(env: Env, s: State, id: nat, slot: Slot)
    requires Placeable(env, s, id)
    ensures slot in s.newTable ==> s.newTable[slot] in s.info && s.newTable[slot] in s.pos && s.pos[s.newTable[slot]] < |s.random|
    ensures slot in s.newTable ==> s.info[s.newTable[slot]].refCount > 0 && !s.info[s.newTable[slot]].inTried
    ensures id in s.pos && s.pos[id] < |s.random|
    ensures !(slot in s.newTable && s.newTable[slot] == id) ==> id in ClearNew(s, slot).info && ClearNew(s, slot).info[id] == s.info[id]
  {
    hide Weak;
    EntryIsIndexed(env, s, id, {});
    if slot in s.newTable {
      SlotIsIndexed(env, s, slot, {});
      VacateKeeps(env, s, slot, {});
    }
    ClearNewFrame(env, s, slot, {});
  }

  /** What placing an entry may do: at most one other entry, a new one, loses a reference. The entry itself
      gets one more reference, stays as it is, or, having none, is forgotten. */
  ghost predicate Placed(before: map<nat, Info>, after: map<nat, Info>, id: nat)
    requires id in before
  {
    && OneNewLost(before, after, {id})
    && (id in after ==> after[id] == before[id] || after[id] == before[id].(refCount := before[id].refCount + 1))
    && (id !in after ==> before[id].refCount == 0 && after == before - {id})
    && (id in after ==> after[id].refCount > 0)
  }

  lemma PlaceInserts(env: Env, s: State, id: nat, source: NetAddr, slot: Slot)
    requires Placeable(env, s, id) && slot == NewSlot(env, s.key, s.info[id].service, source)
    requires !(slot in s.newTable && s.newTable[slot] == id)
    ensures id in ClearNew(s, slot).info
    ensures var r := PutNew(ClearNew(s, slot), id, slot);
            Sound(env, r) && Placed(s.info, r.info, id) && r.key == s.key && r.triedTable == s.triedTable && r.idCount == s.idCount
  {
    hide Weak;
    RefCountInRange(env, s, {}, id);
    PlaceDefined(env, s, id, slot);
    ClearNewKeeps(env, s, slot, {});
    ClearNewFrame(env, s, slot, {});
    ClearNewReferenced(s, slot, {id});
    PutNewKeeps(env, ClearNew(s, slot), id, slot, {});
    var r := PutNew(ClearNew(s, slot), id, slot);
    assert LostOnly(s.info, r.info, {id}, if slot in s.newTable then s.newTable[slot] else id);
  }

  lemma PlaceKeeps(env: Env, s: State, id: nat, source: NetAddr, now: int)
    requires Placeable(env, s, id)
    ensures var r := Place(env, s, id, source, now);
            Sound(env, r) && Placed(s.info, r.info, id) && r.key == s.key && r.triedTable == s.triedTable && r.idCount == s.idCount
  {
    hide Weak;
    var slot := NewSlot(env, s.key, s.info[id].service, source);
    RefCountInRange(env, s, {}, id);
    PlaceDefined(env, s, id, slot);
    if slot in s.newTable && s.newTable[slot] == id {
      assert LostOnly(s.info, s.info, {id}, id);
    } else if slot !in s.newTable || MayOverwrite(s, slot, id, now) {
      PlaceInserts(env, s, id, source, slot);
    } else if s.info[id].refCount == 0 {
      DeleteKeeps(env, s, id, {});
      assert LostOnly(s.info, Delete(s, id).info, {id}, id);
    } else {
      assert LostOnly(s.info, s.info, {id}, id);
    }
  }

  /** The time of a known entry after a new announcement of its address. */
  function RefreshedTime(time: nat, announced: nat, penalty: int, now: int): nat {
    var online := now - announced < DAY;
    var interval := if online then 60 * 60 else DAY;
    if announced != 0 && (time == 0 || time < announced - interval - penalty)
    then if announced - penalty > 0 then announced - penalty else 0
    else time
  }

  /** The fields of a known entry that a new announcement of its address updates. */
  function Refresh(i: Info, addr: Address, penalty: int, now: int): (r: Info)
    ensures SameStanding(i, r) && r.lastTry == i.lastTry && r.lastSuccess == i.lastSuccess && r.source == i.source
    ensures r.services == i.services | addr.services && r.attempts == i.attempts
  {
    i.(time := RefreshedTime(i.time, addr.time, penalty, now), services := i.services | addr.services)
  }

  /** An announcement moves the time only forward, to its own time less the penalty, and exactly when the
      entry has no time or lags behind by more than the penalty and an hour, or a day when the
      announcement itself is a day old. */
  lemma RefreshRules(time: nat, announced: nat, penalty: int, now: int)
    requires penalty >= 0
    ensures var r := RefreshedTime(time, announced, penalty, now);
            var lag := penalty + if announced + 86400 > now then 3600 else 86400;
      && r >= time
      && (announced != 0 && (time == 0 || announced - time > lag) ==> r == if announced > penalty then announced - penalty else 0)
      && (announced == 0 || (time != 0 && announced - time <= lag) ==> r == time)
  {
  }

  /** The conditions of IsTerrible: not tried within the last minute, and announced for more than ten minutes
      ahead, or not for a month, or tried three times and never reached, or not reached for a week with
      ten failures since. */
  lemma TerribleIff(i: Info, now: int)
    ensures IsTerrible(i, now) <==>
      && (i.lastTry == 0 || now - i.lastTry > 60)
      && (|| i.time - now > 600
          || i.time == 0 || now - i.time > 2592000
          || (i.lastSuccess == 0 && i.attempts >= 3)
          || (now - i.lastSuccess > 604800 && i.attempts >= 10))
  {
  }

  /** Does Add_ give a known entry another reference? `draw` is the random number:
      one chance in two to the number of references it has. */
  predicate WantsReference(i: Info, addr: Address, draw: nat)
    requires i.refCount >= 0
  {
    && addr.time != 0 && (i.time == 0 || addr.time > i.time)
    && !i.inTried && i.refCount != NEW_BUCKETS_PER_ADDRESS
    && (Pow(2, i.refCount) <= 1 || draw % Pow(2, i.refCount) == 0)
  }

  /** The state in which Add_ starts to place a new address. */
  function Created(s: State, addr: Address, source: NetAddr, penalty: int): State {
    var made := Create(s, addr, source);
    var id := s.idCount;
    made.(newCount := made.newCount + 1,
          info := made.info[id := made.info[id].(time := if addr.time - penalty > 0 then addr.time - penalty else 0)])
  }

  /** Add_: takes in an announced address; the result tells whether it was unknown. */
  function Add(env: Env, s: State, addr: Address, source: NetAddr, penalty: int, now: int, draw: nat): (State, bool)
    requires Sound(env, s)
  {
    if !env.routable(addr.service.addr) then (s, false)
    else if Knows(s, addr.service.addr) then
      var id := s.addr[addr.service.addr];
      var i := Refresh(s.info[id], addr, penalty, now);
      KnownPlaceable(env, s, id, i);
      if WantsReference(i, addr, draw) then (Place(env, Restamp(s, id, i), id, source, now), false)
      else (Restamp(s, id, i), false)
    else
      CreatedPlaceable(env, s, addr, source, penalty);
      (Place(env, Created(s, addr, source, penalty), s.idCount, source, now), true)
  }

  lemma KnownPlaceable(env: Env, s: State, id: nat, i: Info)
    requires Sound(env, s) && id in s.info && SameStanding(s.info[id], i)
    ensures 0 <= i.refCount && Sound(env, Restamp(s, id, i))
    ensures !i.inTried && i.refCount != NEW_BUCKETS_PER_ADDRESS ==> Placeable(env, Restamp(s, id, i), id)
  {
    hide Weak;
    RestampKeeps(env, s, id, i, {});
    RefCountInRange(env, s, {}, id);
  }

  lemma UnknownAddr(info: map<nat, Info>, idCount: nat, addr: map<NetAddr, nat>, a: NetAddr)
    requires AddrOk(info, idCount, addr) && !(a in addr && addr[a] in info)
    ensures a !in addr && idCount !in info
  {
  }

  lemma CreatedPlaceable(env: Env, s: State, addr: Address, source: NetAddr, penalty: int)
    requires Sound(env, s) && !Knows(s, addr.service.addr)
    ensures s.idCount !in s.info
    ensures Placeable(env, Created(s, addr, source, penalty), s.idCount)
  {
    assert AddrOk(s.info, s.idCount, s.addr);
    hide Weak, AddrOk;
    UnknownAddr(s.info, s.idCount, s.addr, addr.service.addr);
    CreateKeeps(env, s, addr, source);
    var made := Create(s, addr, source);
    var id := s.idCount;
    var counted := made.(newCount := made.newCount + 1);
    RestampKeeps(env, counted, id, Created(s, addr, source, penalty).info[id], {});
  }

  lemma SameIdsAfterPlace(env: Env, s: State, id: nat, source: NetAddr, now: int)
    requires Placeable(env, s, id) && StatsOk(s.info)
    ensures Inv(env, Place(env, s, id, source, now)) && Place(env, s, id, source, now).triedTable == s.triedTable
  {
    hide Weak;
    PlaceKeeps(env, s, id, source, now);
    StatsAfterPlace(s.info, Place(env, s, id, source, now).info, id);
  }

  lemma StatsAfterPlace(before: map<nat, Info>, after: map<nat, Info>, id: nat)
    requires id in before && Placed(before, after, id) && StatsOk(before)
    ensures StatsOk(after)
  {
    var x :| LostOnly(before, after, {id}, x);
    forall j | j in after
      ensures after[j].lastTry >= 0 && after[j].lastSuccess >= 0 && (after[j].inTried ==> after[j].lastSuccess != 0)
    {
      if j != id && j != x {
        assert after[j] == before[j];
      }
    }
  }

  /** A known entry refreshed, and given another slot or not. */
  lemma KnownKeeps(env: Env, s: State, id: nat, i: Info, source: NetAddr, now: int)
    requires Inv(env, s) && id in s.info && SameStanding(s.info[id], i)
    requires i.lastTry == s.info[id].lastTry && i.lastSuccess == s.info[id].lastSuccess
    ensures Inv(env, Restamp(s, id, i))
    ensures Placeable(env, Restamp(s, id, i), id) ==>
              Inv(env, Place(env, Restamp(s, id, i), id, source, now)) && Place(env, Restamp(s, id, i), id, source, now).triedTable == s.triedTable
  {
    hide Sound, Placeable, Place;
    KnownPlaceable(env, s, id, i);
    if Placeable(env, Restamp(s, id, i), id) {
      SameIdsAfterPlace(env, Restamp(s, id, i), id, source, now);
    }
  }

  /** A new entry placed or given up. */
  lemma UnknownKeeps(env: Env, s: State, addr: Address, source: NetAddr, penalty: int, now: int)
    requires Inv(env, s) && !Knows(s, addr.service.addr)
    ensures Placeable(env, Created(s, addr, source, penalty), s.idCount)
    ensures var r := Place(env, Created(s, addr, source, penalty), s.idCount, source, now);
            Inv(env, r) && r.triedTable == s.triedTable
  {
    hide Sound, Placeable, Place;
    CreatedPlaceable(env, s, addr, source, penalty);
    SameIdsAfterPlace(env, Created(s, addr, source, penalty), s.idCount, source, now);
  }

  /** Adding keeps the invariant and the tried table, and reports true iff the address is routable and was unknown. */
  lemma AddKeeps(env: Env, s: State, addr: Address, source: NetAddr, penalty: int, now: int, draw: nat)
    requires Inv(env, s)
    ensures var (r, isNew) := Add(env, s, addr, source, penalty, now, draw);
            && Inv(env, r)
            && r.triedTable == s.triedTable
            && (isNew <==> env.routable(addr.service.addr) && !Knows(s, addr.service.addr))
  {
    hide Sound, StatsOk, Placeable, Place, Refresh, Created, WantsReference;
    if env.routable(addr.service.addr) {
      if Knows(s, addr.service.addr) {
        var id := s.addr[addr.service.addr];
        var i := Refresh(s.info[id], addr, penalty, now);
        KnownPlaceable(env, s, id, i);
        KnownKeeps(env, s, id, i, source, now);
        WantedIsUntried(i, addr, draw);
      } else {
        UnknownKeeps(env, s, addr, source, penalty, now);
      }
    }
  }

  lemma WantedIsUntried(i: Info, addr: Address, draw: nat)
    requires i.refCount >= 0
    ensures WantsReference(i, addr, draw) ==> !i.inTried && i.refCount != NEW_BUCKETS_PER_ADDRESS
  {
  }

  /** The entry Add_ works on. */
  function AddedId(s: State, addr: Address): nat {
    if Knows(s, addr.service.addr) then s.addr[addr.service.addr] else s.idCount
  }

  /** Adding never disturbs more than one entry besides the added one, and that one was new. */
  lemma AddLosesAtMostOne(env: Env, s: State, addr: Address, source: NetAddr, penalty: int, now: int, draw: nat)
    requires Inv(env, s)
    ensures var before := if env.routable(addr.service.addr) && !Knows(s, addr.service.addr)
                          then Created(s, addr, source, penalty).info else s.info;
            OneNewLost(before, Add(env, s, addr, source, penalty, now, draw).0.info, {AddedId(s, addr)})
  {
    hide Weak;
    var id := AddedId(s, addr);
    if !env.routable(addr.service.addr) {
      assert LostOnly(s.info, s.info, {id}, id);
    } else if Knows(s, addr.service.addr) {
      var i := Refresh(s.info[id], addr, penalty, now);
      KnownPlaceable(env, s, id, i);
      if WantsReference(i, addr, draw) {
        PlaceKeeps(env, Restamp(s, id, i), id, source, now);
        RestampNoLoss(s.info, Place(env, Restamp(s, id, i), id, source, now).info, id, i);
      } else {
        assert LostOnly(s.info, Restamp(s, id, i).info, {id}, id);
      }
    } else {
      CreatedPlaceable(env, s, addr, source, penalty);
      PlaceKeeps(env, Created(s, addr, source, penalty), s.idCount, source, now);
    }
  }

  lemma RestampNoLoss(before: map<nat, Info>, after: map<nat, Info>, id: nat, i: Info)
    requires id in before && OneNewLost(before[id := i], after, {id})
    ensures OneNewLost(before, after, {id})
  {
    var x :| LostOnly(before[id := i], after, {id}, x);
    assert LostOnly(before, after, {id}, x);
  }

  /** A true result does not mean that the address was stored: it is, iff its slot was free or could be overwritten. */
  lemma AddStores(env: Env, s: State, addr: Address, source: NetAddr, penalty: int, now: int, draw: nat)
    requires Inv(env, s) && env.routable(addr.service.addr) && !Knows(s, addr.service.addr)
    ensures var slot := NewSlot(env, s.key, addr.service, source);
            && (slot in s.newTable ==> s.newTable[slot] in s.info)
            && (s.idCount in Add(env, s, addr, source, penalty, now, draw).0.info
                <==> slot !in s.newTable || IsTerrible(s.info[s.newTable[slot]], now) || s.info[s.newTable[slot]].refCount > 1)
  {
    hide Weak;
    CreatedPlaceable(env, s, addr, source, penalty);
    var made := Created(s, addr, source, penalty);
    var slot := NewSlot(env, s.key, addr.service, source);
    if slot in s.newTable {
      SlotIsIndexed(env, s, slot, {});
    }
    PlaceDefined(env, made, s.idCount, slot);
  }

  /** What placing does to the table and to the entry. */
  lemma PlaceTable(env: Env, s: State, id: nat, source: NetAddr, now: int)
    requires Placeable(env, s, id)
    ensures var slot := NewSlot(env, s.key, s.info[id].service, source);
            var r := Place(env, s, id, source, now);
            && (slot in s.newTable ==> s.newTable[slot] in s.info)
            && var puts := slot !in s.newTable || (s.newTable[slot] != id && MayOverwrite(s, slot, id, now));
            && r.newTable == (if puts then s.newTable[slot := id] else s.newTable)
            && (if puts then id in r.info && r.info[id] == s.info[id].(refCount := s.info[id].refCount + 1)
                else if s.info[id].refCount == 0 && !(slot in s.newTable && s.newTable[slot] == id) then id !in r.info
                else id in r.info && r.info[id] == s.info[id])
  {
    hide Weak, Referenced;
    var slot := NewSlot(env, s.key, s.info[id].service, source);
    PlaceDefined(env, s, id, slot);
    ClearNewFrame(env, s, slot, {});
  }

  /** The entry an announcement leaves Add_ with before it looks for a slot. */
  function Announced(s: State, addr: Address, source: NetAddr, penalty: int, now: int): Info {
    if Knows(s, addr.service.addr) then Refresh(s.info[s.addr[addr.service.addr]], addr, penalty, now)
    else Info(addr.service, addr.services, if addr.time - penalty > 0 then addr.time - penalty else 0, 0, source, 0, 0, 0, false)
  }

  /** Does Add_ look for a slot? */
  predicate Seeks(s: State, addr: Address, source: NetAddr, penalty: int, now: int, draw: nat)
    requires Knows(s, addr.service.addr) ==> s.info[s.addr[addr.service.addr]].refCount >= 0
  {
    Knows(s, addr.service.addr) ==> WantsReference(Announced(s, addr, source, penalty, now), addr, draw)
  }

  /** May an entry with that many references take the place of this one? */
  predicate GivesWay(existing: Info, refCount: int, now: int) {
    IsTerrible(existing, now) || (existing.refCount > 1 && refCount == 0)
  }

  /** Where an announced address goes: into its slot for the announcing source, if that slot is free or
      holds an entry that gives way; nothing else changes in the new table. The entry then has one
      reference more. */
  lemma AddPlaces(env: Env, s: State, addr: Address, source: NetAddr, penalty: int, now: int, draw: nat)
    requires Inv(env, s) && env.routable(addr.service.addr)
    ensures Knows(s, addr.service.addr) ==> s.info[s.addr[addr.service.addr]].refCount >= 0
    ensures var r := Add(env, s, addr, source, penalty, now, draw).0;
            var id, i := AddedId(s, addr), Announced(s, addr, source, penalty, now);
            var slot := NewSlot(env, s.key, i.service, source);
            && (slot in s.newTable ==> s.newTable[slot] in s.info)
            && var puts := Seeks(s, addr, source, penalty, now, draw)
                 && (slot !in s.newTable || (s.newTable[slot] != id && GivesWay(s.info[s.newTable[slot]], i.refCount, now)));
            && r.newTable == (if puts then s.newTable[slot := id] else s.newTable)
            && (puts ==> id in r.info && r.info[id] == i.(refCount := i.refCount + 1))
            && (!puts ==> if Knows(s, addr.service.addr) then id in r.info && r.info[id] == i else id !in r.info)
  {
    hide Weak, Referenced, StatsOk, Refresh, WantsReference, Place, IsTerrible;
    var id := AddedId(s, addr);
    if Knows(s, addr.service.addr) {
      var i := Refresh(s.info[id], addr, penalty, now);
      KnownPlaceable(env, s, id, i);
      WantedIsUntried(i, addr, draw);
      SlotHeld(env, s, NewSlot(env, s.key, i.service, source));
      KnownReferenced(env, s, id);
      if WantsReference(i, addr, draw) {
        PlaceTable(env, Restamp(s, id, i), id, source, now);
      }
    } else {
      CreatedPlaceable(env, s, addr, source, penalty);
      SlotHeld(env, s, NewSlot(env, s.key, addr.service, source));
      PlaceTable(env, Created(s, addr, source, penalty), id, source, now);
    }
  }

  lemma SlotHeld(env: Env, s: State, slot: Slot)
    requires Sound(env, s)
    ensures slot in s.newTable ==> s.newTable[slot] in s.info
  {
    hide Weak;
    if slot in s.newTable {
      SlotIsIndexed(env, s, slot, {});
    }
  }

  /** A known entry that is not tried has a reference. */
  lemma KnownReferenced(env: Env, s: State, id: nat)
    requires Sound(env, s) && id in s.info
    ensures s.info[id].refCount >= 0 && (!s.info[id].inTried ==> s.info[id].refCount > 0)
  {
    hide Weak;
    RefCountInRange(env, s, {}, id);
  }

  // ---------- GetAddr_ ----------

  /** A random position from n on: GetRandInt(size - n) + n. */
  function Pick(raw: nat, n: nat, size: nat): (p: nat)
    requires n < size
    ensures n <= p < size
  {
    raw % (size - n) + n
  }

  /** Every such position can come up. */
  lemma EveryPick(n: nat, size: nat, p: nat)
    requires n <= p < size
    ensures exists raw: nat :: Pick(raw, n, size) == p
  {
    Divide(0, size - n, p - n);
    assert Pick(p - n, n, size) == p;
  }

  /** The loop of GetAddr_ from position n: shuffles vRandom and picks at most `limit` entries worth handing out.
      `draw(n)` is the random number drawn in round n. */
  function Sample(s: State, n: nat, limit: nat, draw: nat -> nat, now: int): (State, seq<nat>)
    requires RandomOk(s.info.Keys, s.pos, s.random)
    decreases |s.random| - n
  {
    if n >= |s.random| || limit == 0 then (s, [])
    else
      var p := Pick(draw(n), n, |s.random|);
      SwapIndex(s, n, p);
      var r := SwapRandom(s, n, p);
      var id := r.random[n];
      IsIndexedAt(r.info.Keys, r.pos, r.random, n);
      if IsTerrible(r.info[id], now) then Sample(r, n + 1, limit, draw, now)
      else
        var (t, ids) := Sample(r, n + 1, limit - 1, draw, now);
        (t, [id] + ids)
  }

  lemma IsIndexedAt(ids: set<nat>, pos: map<nat, nat>, random: seq<nat>, n: nat)
    requires RandomOk(ids, pos, random) && n < |random|
    ensures random[n] in ids && random[n] in pos && pos[random[n]] == n
  {
  }

  /** The ids standing at position n or later. */
  ghost predicate StandsFrom(s: State, n: nat, id: nat) {
    id in s.pos && n <= s.pos[id] < |s.random|
  }

  lemma SwapStands(s: State, n: nat, p: nat, id: nat)
    requires RandomOk(s.info.Keys, s.pos, s.random) && n <= p < |s.random|
    ensures StandsFrom(SwapRandom(s, n, p), n, id) <==> StandsFrom(s, n, id)
  {
  }

  /** Distinct entries from position n on, none of them terrible, at most `limit`, and if fewer, all there are. */
  ghost predicate Fair(s: State, n: nat, limit: nat, now: int, ids: seq<nat>) {
    && |ids| <= limit
    && (forall i, j :: 0 <= i < j < |ids| ==> ids[i] != ids[j])
    && (forall id :: id in ids ==> StandsFrom(s, n, id) && id in s.info && !IsTerrible(s.info[id], now))
    && (|ids| < limit ==> forall id :: StandsFrom(s, n, id) && id in s.info && !IsTerrible(s.info[id], now) ==> id in ids)
  }

  lemma FairStep(s: State, n: nat, limit: nat, now: int, ids: seq<nat>)
    requires RandomOk(s.info.Keys, s.pos, s.random) && n < |s.random| && limit > 0
    ensures s.random[n] in s.info
    ensures IsTerrible(s.info[s.random[n]], now) && Fair(s, n + 1, limit, now, ids) ==> Fair(s, n, limit, now, ids)
    ensures !IsTerrible(s.info[s.random[n]], now) && Fair(s, n + 1, limit - 1, now, ids) ==> Fair(s, n, limit, now, [s.random[n]] + ids)
  {
    var head := s.random[n];
    IsIndexedAt(s.info.Keys, s.pos, s.random, n);
    forall id | id in s.info ensures StandsFrom(s, n, id) <==> StandsFrom(s, n + 1, id) || id == head {
      IsIndexed(s.info.Keys, s.pos, s.random, id);
    }
    assert !StandsFrom(s, n + 1, head);
  }

  lemma FairSwap(s: State, n: nat, p: nat, limit: nat, now: int, ids: seq<nat>)
    requires RandomOk(s.info.Keys, s.pos, s.random) && n <= p < |s.random|
    requires Fair(SwapRandom(s, n, p), n, limit, now, ids)
    ensures Fair(s, n, limit, now, ids)
  {
    forall id ensures StandsFrom(s, n, id) <==> StandsFrom(SwapRandom(s, n, p), n, id) {
      SwapStands(s, n, p, id);
    }
  }

  /** The sample shuffles vRandom and nothing else, and is fair. */
  lemma {:induction false} SampleIsFair(s: State, n: nat, limit: nat, draw: nat -> nat, now: int)
    requires RandomOk(s.info.Keys, s.pos, s.random)
    ensures var (t, ids) := Sample(s, n, limit, draw, now);
            && RandomOk(t.info.Keys, t.pos, t.random)
            && t == s.(pos := t.pos, random := t.random)
            && Fair(s, n, limit, now, ids)
    decreases |s.random| - n
  {
    hide RandomOk, Fair, SwapRandom, IsTerrible, Pick;
    if n < |s.random| && limit > 0 {
      var p := Pick(draw(n), n, |s.random|);
      SwapIndex(s, n, p);
      SwapOnlyOrder(s, n, p);
      var r := SwapRandom(s, n, p);
      IsIndexedAt(r.info.Keys, r.pos, r.random, n);
      var left := if IsTerrible(r.info[r.random[n]], now) then limit else limit - 1;
      SampleIsFair(r, n + 1, left, draw, now);
      FairStep(r, n, limit, now, Sample(r, n + 1, left, draw, now).1);
      FairSwap(s, n, p, limit, now, Sample(s, n, limit, draw, now).1);
    } else {
      NoneLeft(s, n, limit, now);
    }
  }

  lemma NoneLeft(s: State, n: nat, limit: nat, now: int)
    requires n >= |s.random| || limit == 0
    ensures Fair(s, n, limit, now, [])
  {
  }

  lemma SwapOnlyOrder(s: State, p1: nat, p2: nat)
    requires p1 < |s.random| && p2 < |s.random|
    ensures var r := SwapRandom(s, p1, p2); r == s.(pos := r.pos, random := r.random)
  {
  }

  /** How many addresses GetAddr_ may return. */
  function SampleLimit(n: nat): nat {
    if GETADDR_MAX_PCT * n / 100 > GETADDR_MAX then GETADDR_MAX else GETADDR_MAX_PCT * n / 100
  }

  /** GetAddr_: the state afterwards and the ids of the addresses returned. */
  function GetAddr(env: Env, s: State, draw: nat -> nat, now: int): (State, seq<nat>)
    requires Sound(env, s)
  {
    Sample(s, 0, SampleLimit(|s.random|), draw, now)
  }

  lemma Reordered(env: Env, s: State, t: State)
    requires Weak(env, s, {}) && t == s.(pos := t.pos, random := t.random) && RandomOk(t.info.Keys, t.pos, t.random)
    ensures Weak(env, t, {})
  {
    hide RandomOk, AddrOk, NewOk, TriedOk, CountsOk;
  }

  lemma WeakIsIndexed(env: Env, s: State)
    requires Weak(env, s, {})
    ensures RandomOk(s.info.Keys, s.pos, s.random)
  {
    hide RandomOk, AddrOk, NewOk, TriedOk, CountsOk;
  }

  lemma AllStandFromStart(s: State)
    requires RandomOk(s.info.Keys, s.pos, s.random)
    ensures forall id :: id in s.info ==> StandsFrom(s, 0, id)
  {
  }

  /** GetAddr_ keeps the invariant and all tables. It returns distinct entries that are not terrible, at most 23%
      of the entries and at most 2500; if it returns fewer than that, it returns every entry that is not terrible. */
  lemma GetAddrKeeps(env: Env, s: State, draw: nat -> nat, now: int)
    requires Inv(env, s)
    ensures var (t, ids) := GetAddr(env, s, draw, now);
            && Inv(env, t) && t.info == s.info && t.newTable == s.newTable && t.triedTable == s.triedTable
            && |ids| <= SampleLimit(|s.random|)
            && (forall i, j :: 0 <= i < j < |ids| ==> ids[i] != ids[j])
            && (forall id :: id in ids ==> id in s.info && !IsTerrible(s.info[id], now))
            && (|ids| < SampleLimit(|s.random|) ==> forall id :: id in s.info && !IsTerrible(s.info[id], now) ==> id in ids)
  {
    hide Weak, RandomOk, IsTerrible, Sample, SampleLimit, StatsOk, Referenced;
    WeakIsIndexed(env, s);
    SampleIsFair(s, 0, SampleLimit(|s.random|), draw, now);
    AllStandFromStart(s);
    Reordered(env, s, GetAddr(env, s, draw, now).0);
  }

  // ---------- Runs ----------

  datatype Op =
    | OpAdd(addr: Address, source: NetAddr, penalty: int, now: int, draw: nat)
    | OpGood(service: Service, time: int)
    | OpAttempt(service: Service, time: int)
    | OpConnected(service: Service, seen: nat)
    | OpGetAddr(draws: nat -> nat, now: int)

  /** The times a caller may pass: Good needs a positive one, Attempt one that is not negative. */
  predicate Timely(op: Op) {
    match op
    case OpGood(_, time) => time > 0
    case OpAttempt(_, time) => time >= 0
    case _ => true
  }

  function Apply(env: Env, s: State, op: Op): State
    requires Sound(env, s)
  {
    match op
    case OpAdd(addr, source, penalty, now, draw) => Add(env, s, addr, source, penalty, now, draw).0
    case OpGood(service, time) => Good(env, s, service, time)
    case OpAttempt(service, time) => Attempt(s, service, time)
    case OpConnected(service, seen) => Connected(s, service, seen)
    case OpGetAddr(draws, now) => GetAddr(env, s, draws, now).0
  }

  /** A freshly constructed manager with a random key. */
  function Empty(key: nat): State {
    Fields(key, 0, map[], map[], map[], [], 0, 0, map[], map[])
  }

  lemma EmptyInv(env: Env, key: nat)
    requires key != 0
    ensures Inv(env, Empty(key))
  {
    assert NewIds(Empty(key).info, {}) == {};
    assert TriedIds(Empty(key).info) == {};
  }

  lemma ApplyKeeps(env: Env, s: State, op: Op)
    requires Inv(env, s) && Timely(op)
    ensures Inv(env, Apply(env, s, op))
  {
    hide Inv, Good, Attempt, Connected, Add, GetAddr;
    assert Sound(env, s) by { InvSound(env, s); }
    match op
    case OpAdd(addr, source, penalty, now, draw) => AddKeeps(env, s, addr, source, penalty, now, draw);
    case OpGood(service, time) => GoodKeeps(env, s, service, time);
    case OpAttempt(service, time) => AttemptKeeps(env, s, service, time);
    case OpConnected(service, seen) => ConnectedKeeps(env, s, service, seen);
    case OpGetAddr(draws, now) => GetAddrKeeps(env, s, draws, now);
  }

  lemma InvSound(env: Env, s: State)
    requires Inv(env, s)
    ensures Sound(env, s)
  {
    hide Sound;
  }

  /** A run of operations. */
  ghost predicate IsRun(env: Env, states: seq<State>, ops: seq<Op>) {
    && |states| == |ops| + 1
    && forall i :: 0 <= i < |ops| ==> Sound(env, states[i]) && states[i + 1] == Apply(env, states[i], ops[i])
  }

  /** From an empty manager, every run of timely operations keeps the invariant at every step. */
  lemma {:induction false} RunKeepsInv(env: Env, key: nat, states: seq<State>, ops: seq<Op>, n: nat)
    requires key != 0 && IsRun(env, states, ops) && states[0] == Empty(key)
    requires forall i :: 0 <= i < |ops| ==> Timely(ops[i])
    requires n <= |ops|
    ensures Inv(env, states[n])
  {
    hide Inv, Sound, Apply;
    if n == 0 {
      EmptyInv(env, key);
    } else {
      RunKeepsInv(env, key, states, ops, n - 1);
      ApplyKeeps(env, states[n - 1], ops[n - 1]);
    }
  }
}
