/** Saving the address manager and loading it again: Serialize, Unserialize and Clear in
    src/addrman.h.
    `Peers` is the content of the stream. Loading numbers the entries anew, so the result is
    compared with what was saved through a renaming of the ids.
    The tables are rebuilt entry by entry; the lemmas follow the three loops of Unserialize. */
module AddrPeers {
  import opened AddrState
  import opened AddrAdd
  import opened AddrCheck

  const BIT30: nat := 0x4000_0000

  /** The fields of an entry that are written to disk. */
  datatype Stored = Stored(service: Service, services: bv64, time: nat, source: NetAddr, lastSuccess: int, attempts: int)

  function ToStored(i: Info): Stored {
    Stored(i.service, i.services, i.time, i.source, i.lastSuccess, i.attempts)
  }

  /** An entry just read: the fields kept in memory only have their initial values. */
  function FromStored(e: Stored): Info {
    Info(e.service, e.services, e.time, 0, e.source, e.lastSuccess, e.attempts, 0, false)
  }

  /** The content of a peers file. */
  datatype Content<E, B> = Content(version: nat, keySize: nat, key: nat, bucketWord: nat, newEntries: E, triedEntries: E, buckets: B)

  type Peers = Content<seq<Stored>, seq<seq<int>>>

  /** n ^ (1 << 30) for a number below 2^31. */
  function FlipBit30(n: nat): nat {
    if n / BIT30 % 2 == 1 then n - BIT30 else n + BIT30
  }

  /** Flipping the bit twice changes nothing, and the word written for 1024 buckets has bit 30 set. */
  lemma FlipTwice(n: nat)
    requires n < 0x8000_0000
    ensures FlipBit30(FlipBit30(n)) == n && FlipBit30(1024) == 0x4000_0400
  {
  }

  // ---------- Ascending lists of ids ----------

  /** The members of a set below n in ascending order: the order in which std::map is walked. */
  ghost function Asc(ids: set<nat>, n: nat): seq<nat> {
    if n == 0 then [] else Asc(ids, n - 1) + if n - 1 in ids then [n - 1] else []
  }

  lemma {:induction false} AscMembers(ids: set<nat>, n: nat)
    ensures forall k :: 0 <= k < |Asc(ids, n)| ==> Asc(ids, n)[k] in ids && Asc(ids, n)[k] < n
    ensures forall k :: 0 <= k < |Asc(ids, n)| ==> |Asc(ids, Asc(ids, n)[k])| == k
  {
    if n > 0 {
      AscMembers(ids, n - 1);
    }
  }

  lemma {:induction false} AscAt(ids: set<nat>, n: nat, id: nat)
    requires id in ids && id < n
    ensures |Asc(ids, id)| < |Asc(ids, n)| && Asc(ids, n)[|Asc(ids, id)|] == id
  {
    if id < n - 1 {
      AscAt(ids, n - 1, id);
    }
  }

  lemma {:induction false} AscSize(ids: set<nat>, n: nat)
    requires forall id :: id in ids ==> id < n
    ensures |Asc(ids, n)| == |ids|
    decreases n
  {
    if n == 0 {
      assert ids == {};
    } else {
      AscBelow(ids, ids - {n - 1}, n - 1);
      AscSize(ids - {n - 1}, n - 1);
    }
  }

  lemma {:induction false} AscBelow(a: set<nat>, b: set<nat>, n: nat)
    requires forall id :: id < n ==> (id in a <==> id in b)
    ensures Asc(a, n) == Asc(b, n)
  {
    if n > 0 {
      AscBelow(a, b, n - 1);
    }
  }

  // ---------- Saving ----------

  /** The number under which an entry is found again: new entries first, then tried ones, each in ascending order. */
  ghost function Renumber(s: State, id: nat): nat
    requires id in s.info
  {
    if s.info[id].inTried then |NewIds(s.info, {})| + |Asc(TriedIds(s.info), id)| else |Asc(NewIds(s.info, {}), id)|
  }

  ghost function StoredOf(info: map<nat, Info>, ids: seq<nat>): seq<Stored>
    requires forall k :: 0 <= k < |ids| ==> ids[k] in info
  {
    seq(|ids|, k requires 0 <= k < |ids| => ToStored(info[ids[k]]))
  }

  /** The entries of the new table in the order they are written. */
  ghost function NewEntries(s: State): seq<Stored> {
    AscMembers(NewIds(s.info, {}), s.idCount);
    StoredOf(s.info, Asc(NewIds(s.info, {}), s.idCount))
  }

  ghost function TriedEntries(s: State): seq<Stored> {
    AscMembers(TriedIds(s.info), s.idCount);
    StoredOf(s.info, Asc(TriedIds(s.info), s.idCount))
  }

  /** The indexes written for the first p cells of bucket b. */
  ghost function BucketList(s: State, b: nat, p: nat): seq<int>
    requires forall sl :: sl in s.newTable ==> s.newTable[sl] in s.info
  {
    if p == 0 then []
    else BucketList(s, b, p - 1) + if Slot(b, p - 1) in s.newTable then [Renumber(s, s.newTable[Slot(b, p - 1)])] else []
  }

  /** What Serialize writes. */
  ghost function Save(s: State): Peers
    requires forall sl :: sl in s.newTable ==> s.newTable[sl] in s.info
  {
    Content(1, 32, s.key, FlipBit30(NEW_BUCKET_COUNT), NewEntries(s), TriedEntries(s),
            seq(NEW_BUCKET_COUNT, b requires b >= 0 => BucketList(s, b, BUCKET_SIZE)))
  }

  // ---------- Loading ----------

  /** Can the saved positions in the new table be used? */
  predicate Usable(p: Peers) {
    p.version == 1 && FlipBit30(p.bucketWord) == NEW_BUCKET_COUNT
  }

  /** One round of the first loop of Unserialize: entry n of the new table. */
  function LoadNewOne(env: Env, s: State, n: nat, e: Stored, usable: bool): State {
    var i := FromStored(e);
    var r := s.(info := s.info[n := i], addr := s.addr[i.service.addr := n], pos := s.pos[n := |s.random|], random := s.random + [n]);
    var slot := NewSlot(env, s.key, i.service, i.source);
    if !usable && slot !in s.newTable then r.(info := r.info[n := i.(refCount := 1)], newTable := r.newTable[slot := n]) else r
  }

  function LoadNew(env: Env, s: State, entries: seq<Stored>, k: nat, usable: bool): State
    requires k <= |entries|
  {
    if k == 0 then s else LoadNewOne(env, LoadNew(env, s, entries, k - 1, usable), k - 1, entries[k - 1], usable)
  }

  /** One round of the second loop: a tried entry, dropped if its slot is taken. */
  function LoadTriedOne(env: Env, s: State, e: Stored): State {
    var i := FromStored(e).(inTried := true);
    var slot := TriedSlot(env, s.key, i.service);
    if slot in s.triedTable then s
    else s.(info := s.info[s.idCount := i], addr := s.addr[i.service.addr := s.idCount], pos := s.pos[s.idCount := |s.random|],
            random := s.random + [s.idCount], triedTable := s.triedTable[slot := s.idCount], idCount := s.idCount + 1,
            triedCount := s.triedCount + 1)
  }

  function LoadTried(env: Env, s: State, entries: seq<Stored>, k: nat): State
    requires k <= |entries|
  {
    if k == 0 then s else LoadTriedOne(env, LoadTried(env, s, entries, k - 1), entries[k - 1])
  }

  /** One round of the third loop: an index read for bucket b. */
  function LoadIndex(env: Env, s: State, b: nat, index: int, newSize: nat, usable: bool): State {
    if 0 <= index < newSize && index in s.info && usable then
      var i := s.info[index];
      var slot := Slot(b, env.position(s.key, i.service, true, b));
      if slot !in s.newTable && i.refCount < NEW_BUCKETS_PER_ADDRESS
      then s.(info := s.info[index := i.(refCount := i.refCount + 1)], newTable := s.newTable[slot := index])
      else s
    else s
  }

  function LoadBucket(env: Env, s: State, b: nat, list: seq<int>, newSize: nat, usable: bool): State {
    if list == [] then s
    else LoadIndex(env, LoadBucket(env, s, b, list[..|list| - 1], newSize, usable), b, list[|list| - 1], newSize, usable)
  }

  function LoadBuckets(env: Env, s: State, buckets: seq<seq<int>>, n: nat, newSize: nat, usable: bool): State
    requires n <= |buckets|
  {
    if n == 0 then s
    else LoadBucket(env, LoadBuckets(env, s, buckets, n - 1, newSize, usable), n - 1, buckets[n - 1], newSize, usable)
  }

  /** The last loop: entries without any reference are deleted, in ascending order. */
  function Prune(s: State, n: nat): State {
    if n == 0 then s
    else
      var r := Prune(s, n - 1);
      // every id has a position in vRandom at this point (LoadIsIndexed)
      if n - 1 in r.info && !r.info[n - 1].inTried && r.info[n - 1].refCount == 0 && n - 1 in r.pos && r.pos[n - 1] < |r.random|
      then Delete(r, n - 1) else r
  }

  /** Unserialize into a freshly constructed manager. */
  function Load(env: Env, p: Peers): State {
    var usable, size := Usable(p), |p.newEntries|;
    var s1 := LoadNew(env, Empty(p.key), p.newEntries, size, usable);
    var s2 := LoadTried(env, s1.(idCount := size, newCount := size), p.triedEntries, |p.triedEntries|);
    var s3 := LoadBuckets(env, s2, p.buckets, |p.buckets|, size, usable);
    Prune(s3, s3.idCount)
  }

  // ---------- Renaming ----------

  /** t is s with the ids renamed by `name`, the memory-only time of the last try reset, and vRandom in any order. */
  ghost predicate Renamed(s: State, t: State, name: map<nat, nat>) {
    && name.Keys == s.info.Keys
    && (forall i, j :: i in name && j in name && i != j ==> name[i] != name[j])
    && (forall i :: i in name ==> name[i] in t.info && t.info[name[i]] == s.info[i].(lastTry := 0))
    && (forall k :: k in t.info ==> exists i :: i in name && name[i] == k)
    && t.key == s.key && t.newCount == s.newCount && t.triedCount == s.triedCount
    && TableRenamed(s.newTable, t.newTable, name) && TableRenamed(s.triedTable, t.triedTable, name)
  }

  ghost predicate TableRenamed(a: Table, b: Table, name: map<nat, nat>) {
    && a.Keys == b.Keys
    && forall sl :: sl in a ==> a[sl] in name && b[sl] == name[a[sl]]
  }

  // ---------- The order of saved entries ----------

  /** The ids of all entries in the order in which they are written and read. */
  ghost function Order(s: State): seq<nat> {
    Asc(NewIds(s.info, {}), s.idCount) + Asc(TriedIds(s.info), s.idCount)
  }

  ghost predicate IdsBelow(s: State) {
    forall id :: id in s.info ==> id < s.idCount
  }

  lemma OrderIs(s: State)
    requires IdsBelow(s)
    ensures |Asc(NewIds(s.info, {}), s.idCount)| == |NewIds(s.info, {})| && |Asc(TriedIds(s.info), s.idCount)| == |TriedIds(s.info)|
    ensures |Order(s)| == |NewIds(s.info, {})| + |TriedIds(s.info)|
    ensures forall n :: 0 <= n < |Order(s)| ==> Order(s)[n] in s.info && Renumber(s, Order(s)[n]) == n
    ensures forall n :: 0 <= n < |Order(s)| ==> (s.info[Order(s)[n]].inTried <==> n >= |NewIds(s.info, {})|)
    ensures forall id :: id in s.info ==> 0 <= Renumber(s, id) < |Order(s)| && Order(s)[Renumber(s, id)] == id
  {
    hide Asc;
    var a, b := NewIds(s.info, {}), TriedIds(s.info);
    AscSize(a, s.idCount);
    AscSize(b, s.idCount);
    AscMembers(a, s.idCount);
    AscMembers(b, s.idCount);
    forall id | id in s.info ensures 0 <= Renumber(s, id) < |Order(s)| && Order(s)[Renumber(s, id)] == id {
      if s.info[id].inTried {
        AscAt(b, s.idCount, id);
      } else {
        AscAt(a, s.idCount, id);
      }
    }
  }

  /** An entry as it stands after reading, before its references are restored. */
  function Base(i: Info): Info {
    i.(lastTry := 0, refCount := 0)
  }

  /** After k entries have been read: they are numbered in order, and the tried ones sit in their slots. */
  ghost predicate Loaded(env: Env, s: State, order: seq<nat>, k: nat, r: State)
    requires k <= |order| && forall n :: 0 <= n < |order| ==> order[n] in s.info
  {
    && r.key == s.key && r.newTable == map[]
    && LoadedIndex(k, r.info.Keys, r.pos, r.random)
    && (forall n :: 0 <= n < k ==> r.info[n] == Base(s.info[order[n]]))
    && LoadedAddr(s.info, order, k, r.addr)
    && LoadedTried(env, s.key, s.info, order, k, r.triedTable)
  }

  ghost predicate LoadedIndex(k: nat, ids: set<nat>, pos: map<nat, nat>, random: seq<nat>) {
    && (forall n :: n in ids <==> 0 <= n < k) && pos.Keys == ids && (forall n :: n in pos ==> pos[n] == n)
    && |random| == k && (forall n :: 0 <= n < k ==> random[n] == n)
  }

  ghost predicate LoadedAddr(info: map<nat, Info>, order: seq<nat>, k: nat, addr: map<NetAddr, nat>)
    requires k <= |order| && forall n :: 0 <= n < |order| ==> order[n] in info
  {
    && (forall n :: 0 <= n < k ==> info[order[n]].service.addr in addr && addr[info[order[n]].service.addr] == n)
    && (forall a :: a in addr ==> addr[a] < k && info[order[addr[a]]].service.addr == a)
  }

  ghost predicate LoadedTried(env: Env, key: nat, info: map<nat, Info>, order: seq<nat>, k: nat, table: Table)
    requires k <= |order| && forall n :: 0 <= n < |order| ==> order[n] in info
  {
    && (forall n :: 0 <= n < k && info[order[n]].inTried ==>
          TriedSlot(env, key, info[order[n]].service) in table && table[TriedSlot(env, key, info[order[n]].service)] == n)
    && (forall sl :: sl in table ==>
          table[sl] < k && info[order[table[sl]]].inTried && sl == TriedSlot(env, key, info[order[table[sl]]].service))
  }

  /** Distinct entries have distinct addresses and, if tried, distinct slots. */
  lemma Distinct(env: Env, s: State, order: seq<nat>, m: nat, n: nat)
    requires AddrOk(s.info, s.idCount, s.addr) && TriedOk(env, s.key, s.info, s.triedTable)
    requires m < n < |order| && order[m] in s.info && order[n] in s.info && order[m] != order[n]
    ensures s.info[order[m]].service.addr != s.info[order[n]].service.addr
    ensures s.info[order[m]].inTried && s.info[order[n]].inTried ==>
              TriedSlot(env, s.key, s.info[order[m]].service) != TriedSlot(env, s.key, s.info[order[n]].service)
  {
  }

  lemma LoadedAddrStep(info: map<nat, Info>, order: seq<nat>, k: nat, addr: map<NetAddr, nat>)
    requires k < |order| && forall n :: 0 <= n < |order| ==> order[n] in info
    requires LoadedAddr(info, order, k, addr)
    requires forall n :: 0 <= n < k ==> info[order[n]].service.addr != info[order[k]].service.addr
    ensures LoadedAddr(info, order, k + 1, addr[info[order[k]].service.addr := k])
  {
  }

  lemma LoadedTriedStep(env: Env, key: nat, info: map<nat, Info>, order: seq<nat>, k: nat, table: Table)
    requires k < |order| && forall n :: 0 <= n < |order| ==> order[n] in info
    requires LoadedTried(env, key, info, order, k, table)
    requires forall n :: 0 <= n < k && info[order[n]].inTried && info[order[k]].inTried ==>
               TriedSlot(env, key, info[order[n]].service) != TriedSlot(env, key, info[order[k]].service)
    ensures info[order[k]].inTried ==> TriedSlot(env, key, info[order[k]].service) !in table
    ensures LoadedTried(env, key, info, order, k + 1,
                        if info[order[k]].inTried then table[TriedSlot(env, key, info[order[k]].service) := k] else table)
  {
  }

  lemma LoadedIndexStep(k: nat, info: map<nat, Info>, pos: map<nat, nat>, random: seq<nat>, i: Info)
    requires LoadedIndex(k, info.Keys, pos, random)
    ensures LoadedIndex(k + 1, info[k := i].Keys, pos[k := |random|], random + [k])
  {
    assert info[k := i].Keys == info.Keys + {k};
  }

  /** Reading the next entry, whether new or tried. */
  lemma LoadedStep(env: Env, s: State, order: seq<nat>, k: nat, r: State, t: State)
    requires k < |order| && (forall n :: 0 <= n < |order| ==> order[n] in s.info) && Loaded(env, s, order, k, r)
    requires forall m, n :: 0 <= m < n < |order| ==> order[m] != order[n]
    requires AddrOk(s.info, s.idCount, s.addr) && TriedOk(env, s.key, s.info, s.triedTable)
    requires var i, slot := s.info[order[k]], TriedSlot(env, s.key, s.info[order[k]].service);
             && t.key == r.key && t.newTable == r.newTable
             && t.info == r.info[k := Base(i)] && t.pos == r.pos[k := |r.random|] && t.random == r.random + [k]
             && t.addr == r.addr[i.service.addr := k]
             && t.triedTable == if i.inTried then r.triedTable[slot := k] else r.triedTable
    ensures Loaded(env, s, order, k + 1, t)
    ensures s.info[order[k]].inTried ==> TriedSlot(env, s.key, s.info[order[k]].service) !in r.triedTable
  {
    hide AddrOk, TriedOk, LoadedIndex, LoadedAddr, LoadedTried, TriedSlot;
    forall n | 0 <= n < k
      ensures s.info[order[n]].service.addr != s.info[order[k]].service.addr
      ensures s.info[order[n]].inTried && s.info[order[k]].inTried ==>
                TriedSlot(env, s.key, s.info[order[n]].service) != TriedSlot(env, s.key, s.info[order[k]].service)
    {
      Distinct(env, s, order, n, k);
    }
    LoadedIndexStep(k, r.info, r.pos, r.random, Base(s.info[order[k]]));
    LoadedAddrStep(s.info, order, k, r.addr);
    LoadedTriedStep(env, s.key, s.info, order, k, r.triedTable);
  }

  lemma StoredBack(i: Info)
    ensures FromStored(ToStored(i)).(inTried := i.inTried) == Base(i)
  {
  }

  lemma OrderDistinct(s: State)
    requires IdsBelow(s)
    ensures forall n :: 0 <= n < |Order(s)| ==> Order(s)[n] in s.info
    ensures forall m, n :: 0 <= m < n < |Order(s)| ==> Order(s)[m] != Order(s)[n]
  {
    hide Order, Renumber;
    OrderIs(s);
    forall m, n | 0 <= m < n < |Order(s)| ensures Order(s)[m] != Order(s)[n] {
      assert Renumber(s, Order(s)[m]) == m && Renumber(s, Order(s)[n]) == n;
    }
  }

  lemma EntriesInOrder(s: State)
    requires IdsBelow(s)
    ensures |NewEntries(s)| == |NewIds(s.info, {})| && |TriedEntries(s)| == |TriedIds(s.info)|
    ensures |Order(s)| == |NewEntries(s)| + |TriedEntries(s)|
    ensures forall n :: 0 <= n < |Order(s)| ==> Order(s)[n] in s.info
    ensures forall n :: 0 <= n < |NewEntries(s)| ==> NewEntries(s)[n] == ToStored(s.info[Order(s)[n]]) && !s.info[Order(s)[n]].inTried
    ensures forall n :: 0 <= n < |TriedEntries(s)| ==>
              var i := s.info[Order(s)[|NewEntries(s)| + n]]; TriedEntries(s)[n] == ToStored(i) && i.inTried
  {
    hide Asc, ToStored;
    OrderIs(s);
    AscMembers(NewIds(s.info, {}), s.idCount);
    AscMembers(TriedIds(s.info), s.idCount);
  }

  ghost predicate Savable(env: Env, s: State) {
    AddrOk(s.info, s.idCount, s.addr) && TriedOk(env, s.key, s.info, s.triedTable) && IdsBelow(s)
  }

  lemma EmptyLoaded(env: Env, s: State, order: seq<nat>)
    requires forall n :: 0 <= n < |order| ==> order[n] in s.info
    ensures Loaded(env, s, order, 0, Empty(s.key))
  {
  }

  lemma {:induction false} LoadNewLoads(env: Env, s: State, k: nat)
    requires Savable(env, s) && k <= |NewEntries(s)|
    ensures forall n :: 0 <= n < |Order(s)| ==> Order(s)[n] in s.info
    ensures |NewEntries(s)| <= |Order(s)|
    ensures var r := LoadNew(env, Empty(s.key), NewEntries(s), k, true);
            Loaded(env, s, Order(s), k, r) && r.triedCount == 0
    decreases k
  {
    hide Order, NewEntries, TriedEntries, Loaded, FromStored, ToStored, Base, TriedOk, AddrOk, IdsBelow;
    EntriesInOrder(s);
    OrderDistinct(s);
    if k == 0 {
      EmptyLoaded(env, s, Order(s));
    } else {
      LoadNewLoads(env, s, k - 1);
      var r := LoadNew(env, Empty(s.key), NewEntries(s), k - 1, true);
      StoredBack(s.info[Order(s)[k - 1]]);
      LoadNewOneIs(env, r, k - 1, s.info[Order(s)[k - 1]]);
      LoadedStep(env, s, Order(s), k - 1, r, LoadNewOne(env, r, k - 1, NewEntries(s)[k - 1], true));
    }
  }

  /** One usable round of the first loop of Unserialize. */
  lemma LoadNewOneIs(env: Env, r: State, n: nat, i: Info)
    requires !i.inTried
    ensures LoadNewOne(env, r, n, ToStored(i), true)
         == r.(info := r.info[n := Base(i)], addr := r.addr[i.service.addr := n], pos := r.pos[n := |r.random|], random := r.random + [n])
  {
    StoredBack(i);
  }

  lemma LoadTriedOneIs(env: Env, r: State, i: Info)
    requires i.inTried && TriedSlot(env, r.key, i.service) !in r.triedTable
    ensures LoadTriedOne(env, r, ToStored(i))
         == r.(info := r.info[r.idCount := Base(i)], addr := r.addr[i.service.addr := r.idCount], pos := r.pos[r.idCount := |r.random|],
               random := r.random + [r.idCount], triedTable := r.triedTable[TriedSlot(env, r.key, i.service) := r.idCount],
               idCount := r.idCount + 1, triedCount := r.triedCount + 1)
  {
    StoredBack(i);
  }

  /** The slot of the next tried entry is free, so nothing is lost to collisions. */
  lemma NextSlotFree(env: Env, s: State, order: seq<nat>, k: nat, r: State)
    requires k < |order| && (forall n :: 0 <= n < |order| ==> order[n] in s.info) && Loaded(env, s, order, k, r)
    requires forall m, n :: 0 <= m < n < |order| ==> order[m] != order[n]
    requires AddrOk(s.info, s.idCount, s.addr) && TriedOk(env, s.key, s.info, s.triedTable)
    ensures r.key == s.key
    ensures s.info[order[k]].inTried ==> TriedSlot(env, s.key, s.info[order[k]].service) !in r.triedTable
  {
    hide AddrOk, TriedOk, LoadedIndex, LoadedAddr, LoadedTried, TriedSlot;
    forall n | 0 <= n < k
      ensures s.info[order[n]].inTried && s.info[order[k]].inTried ==>
                TriedSlot(env, s.key, s.info[order[n]].service) != TriedSlot(env, s.key, s.info[order[k]].service)
    {
      Distinct(env, s, order, n, k);
    }
    LoadedTriedStep(env, s.key, s.info, order, k, r.triedTable);
  }

  /** The state between the first and the second loop. */
  ghost function AfterNew(env: Env, s: State): State {
    LoadNew(env, Empty(s.key), NewEntries(s), |NewEntries(s)|, true).(idCount := |NewEntries(s)|, newCount := |NewEntries(s)|)
  }

  lemma LoadedOnly(env: Env, s: State, order: seq<nat>, k: nat, r: State, t: State)
    requires k <= |order| && (forall n :: 0 <= n < |order| ==> order[n] in s.info) && Loaded(env, s, order, k, r)
    requires t == r.(idCount := t.idCount, newCount := t.newCount, triedCount := t.triedCount)
    ensures Loaded(env, s, order, k, t)
  {
  }

  lemma {:induction false} LoadTriedLoads(env: Env, s: State, k: nat)
    requires Savable(env, s) && k <= |TriedEntries(s)|
    ensures forall n :: 0 <= n < |Order(s)| ==> Order(s)[n] in s.info
    ensures |Order(s)| == |NewEntries(s)| + |TriedEntries(s)|
    ensures var r := LoadTried(env, AfterNew(env, s), TriedEntries(s), k);
            && Loaded(env, s, Order(s), |NewEntries(s)| + k, r)
            && r.idCount == |NewEntries(s)| + k && r.newCount == |NewEntries(s)| && r.triedCount == k
    decreases k
  {
    hide Order, NewEntries, TriedEntries, Loaded, FromStored, ToStored, Base, TriedOk, AddrOk, IdsBelow, LoadNew, TriedSlot;
    EntriesInOrder(s);
    OrderDistinct(s);
    if k == 0 {
      LoadNewLoads(env, s, |NewEntries(s)|);
      LoadedOnly(env, s, Order(s), |NewEntries(s)|, LoadNew(env, Empty(s.key), NewEntries(s), |NewEntries(s)|, true), AfterNew(env, s));
    } else {
      LoadTriedLoads(env, s, k - 1);
      var r := LoadTried(env, AfterNew(env, s), TriedEntries(s), k - 1);
      var n := |NewEntries(s)| + k - 1;
      var i := s.info[Order(s)[n]];
      assert TriedEntries(s)[k - 1] == ToStored(i) && i.inTried;
      NextSlotFree(env, s, Order(s), n, r);
      ServiceStored(i);
      LoadTriedOneIs(env, r, i);
      LoadedStep(env, s, Order(s), n, r, LoadTriedOne(env, r, TriedEntries(s)[k - 1]));
    }
  }

  lemma ServiceStored(i: Info)
    ensures ToStored(i).service == i.service
  {
  }

  // ---------- The positions in the new table ----------

  /** After the cells in `seen` have been read: the renumbered entries sit in them and their references are counted. */
  ghost predicate Slotted(s: State, seen: Table, base: State, r: State)
    requires forall n :: 0 <= n < |Order(s)| ==> Order(s)[n] in s.info
  {
    && r == base.(info := r.info, newTable := r.newTable)
    && r.key == s.key
    && (forall n :: n in r.info <==> 0 <= n < |Order(s)|)
    && r.newTable.Keys == seen.Keys
    && (forall sl :: sl in seen ==> seen[sl] in s.info && r.newTable[sl] == Renumber(s, seen[sl]))
    && (forall n :: 0 <= n < |Order(s)| ==>
          r.info[n] == Base(s.info[Order(s)[n]]).(refCount := |SlotsOf(seen, Order(s)[n])|))
  }

  /** A cell of the saved new table: its entry is untried, stands at its position, and has references left to restore. */
  lemma CellFacts(env: Env, s: State, seen: Table, sl: Slot)
    requires NewOk(env, s.key, s.info, s.newTable, {}) && sl in s.newTable && sl !in seen
    requires forall t :: t in seen ==> t in s.newTable && s.newTable[t] == seen[t]
    ensures var id := s.newTable[sl];
            && id in s.info && !s.info[id].inTried && |SlotsOf(seen, id)| < NEW_BUCKETS_PER_ADDRESS
            && sl == Slot(sl.bucket, env.position(s.key, s.info[id].service, true, sl.bucket))
  {
    hide SlotsOf;
    var id := s.newTable[sl];
    SlotsOfMore(seen, sl, id, id);
    SlotsOfSub(seen[sl := id], s.newTable, id);
    assert s.info[id].refCount == |SlotsOf(s.newTable, id)|;
  }

  lemma LoadIndexIs(env: Env, r: State, sl: Slot, index: nat, size: nat)
    requires index < size && index in r.info && r.info[index].refCount < NEW_BUCKETS_PER_ADDRESS && sl !in r.newTable
    requires sl == Slot(sl.bucket, env.position(r.key, r.info[index].service, true, sl.bucket))
    ensures LoadIndex(env, r, sl.bucket, index, size, true)
         == r.(info := r.info[index := r.info[index].(refCount := r.info[index].refCount + 1)], newTable := r.newTable[sl := index])
  {
  }

  /** Renumbering pairs the entries' reference counts: one more slot of id counts for its new number only. */
  lemma OneMoreCounted(s: State, seen: Table, sl: Slot, id: nat)
    requires IdsBelow(s) && id in s.info && sl !in seen
    requires forall n :: 0 <= n < |Order(s)| ==> Order(s)[n] in s.info
    ensures forall n :: 0 <= n < |Order(s)| ==>
              |SlotsOf(seen[sl := id], Order(s)[n])| == |SlotsOf(seen, Order(s)[n])| + if n == Renumber(s, id) then 1 else 0
  {
    hide Order, Renumber, SlotsOf, IdsBelow;
    OrderIs(s);
    forall n | 0 <= n < |Order(s)|
      ensures |SlotsOf(seen[sl := id], Order(s)[n])| == |SlotsOf(seen, Order(s)[n])| + if n == Renumber(s, id) then 1 else 0
    {
      SlotsOfMore(seen, sl, id, Order(s)[n]);
      assert Order(s)[n] == id <==> n == Renumber(s, id);
    }
  }

  lemma NewNumber(s: State, id: nat)
    requires IdsBelow(s) && id in s.info
    requires forall n :: 0 <= n < |Order(s)| ==> Order(s)[n] in s.info
    ensures 0 <= Renumber(s, id) < |Order(s)| && Order(s)[Renumber(s, id)] == id
    ensures !s.info[id].inTried ==> Renumber(s, id) < |NewIds(s.info, {})|
  {
    hide Order, IdsBelow;
    OrderIs(s);
    assert s.info[Order(s)[Renumber(s, id)]].inTried == s.info[id].inTried;
  }

  lemma SlottedStep(env: Env, s: State, seen: Table, base: State, r: State, sl: Slot)
    requires NewOk(env, s.key, s.info, s.newTable, {}) && IdsBelow(s) && sl in s.newTable && sl !in seen
    requires forall t :: t in seen ==> t in s.newTable && s.newTable[t] == seen[t]
    requires (forall n :: 0 <= n < |Order(s)| ==> Order(s)[n] in s.info) && Slotted(s, seen, base, r)
    ensures s.newTable[sl] in s.info
    ensures var index := Renumber(s, s.newTable[sl]);
            Slotted(s, seen[sl := s.newTable[sl]], base, LoadIndex(env, r, sl.bucket, index, |NewIds(s.info, {})|, true))
  {
    hide NewOk, Order, Renumber, SlotsOf, NewIds, IdsBelow, LoadIndex;
    CellFacts(env, s, seen, sl);
    var id := s.newTable[sl];
    NewNumber(s, id);
    LoadIndexIs(env, r, sl, Renumber(s, id), |NewIds(s.info, {})|);
    OneMoreCounted(s, seen, sl, id);
  }

  ghost predicate Positioned(env: Env, s: State) {
    && NewOk(env, s.key, s.info, s.newTable, {}) && IdsBelow(s)
    && (forall n :: 0 <= n < |Order(s)| ==> Order(s)[n] in s.info)
    && (forall sl :: sl in s.newTable ==> s.newTable[sl] in s.info)
  }

  lemma {:induction false} BucketLoads(env: Env, s: State, base: State, r: State, b: nat, p: nat)
    requires Positioned(env, s) && Slotted(s, Seen(s.newTable, b, 0), base, r)
    ensures Slotted(s, Seen(s.newTable, b, p), base, LoadBucket(env, r, b, BucketList(s, b, p), |NewIds(s.info, {})|, true))
    decreases p
  {
    hide NewOk, Order, Renumber, SlotsOf, NewIds, IdsBelow, LoadIndex, Slotted, Seen;
    if p > 0 {
      BucketLoads(env, s, base, r, b, p - 1);
      SeenStep(s.newTable, b, p - 1);
      var sl := Slot(b, p - 1);
      if sl in s.newTable {
        SeenAgrees(s.newTable, b, p - 1);
        var front, x := BucketList(s, b, p - 1), Renumber(s, s.newTable[sl]);
        assert (front + [x])[..|front + [x]| - 1] == front;
        SlottedStep(env, s, Seen(s.newTable, b, p - 1), base, LoadBucket(env, r, b, front, |NewIds(s.info, {})|, true), sl);
      } else {
        assert BucketList(s, b, p) == BucketList(s, b, p - 1);
      }
    }
  }

  lemma SavedBuckets(s: State)
    requires forall sl :: sl in s.newTable ==> s.newTable[sl] in s.info
    ensures |Save(s).buckets| == NEW_BUCKET_COUNT
    ensures forall b :: 0 <= b < NEW_BUCKET_COUNT ==> Save(s).buckets[b] == BucketList(s, b, BUCKET_SIZE)
  {
    hide BucketList, NewEntries, TriedEntries;
  }

  lemma {:induction false} BucketsLoad(env: Env, s: State, base: State, n: nat)
    requires Positioned(env, s) && n <= |Save(s).buckets|
    requires forall sl :: sl in s.newTable ==> sl.pos < BUCKET_SIZE
    requires Slotted(s, Seen(s.newTable, 0, 0), base, base)
    ensures Slotted(s, Seen(s.newTable, n, 0), base, LoadBuckets(env, base, Save(s).buckets, n, |NewIds(s.info, {})|, true))
    decreases n
  {
    hide NewOk, Order, SlotsOf, NewIds, IdsBelow, Slotted, Seen, Save, BucketList, LoadBucket;
    SavedBuckets(s);
    if n > 0 {
      BucketsLoad(env, s, base, n - 1);
      var r := LoadBuckets(env, base, Save(s).buckets, n - 1, |NewIds(s.info, {})|, true);
      BucketLoads(env, s, base, r, n - 1, BUCKET_SIZE);
      SeenRow(s.newTable, n - 1, BUCKET_SIZE);
    }
  }

  lemma SlottedStart(env: Env, s: State, base: State)
    requires forall n :: 0 <= n < |Order(s)| ==> Order(s)[n] in s.info
    requires Loaded(env, s, Order(s), |Order(s)|, base)
    ensures Slotted(s, Seen(s.newTable, 0, 0), base, base)
  {
    hide Order, LoadedAddr, LoadedTried;
    assert Seen(s.newTable, 0, 0) == map[];
    forall id ensures SlotsOf(map[], id) == {} {
    }
  }

  lemma {:induction false} PruneNothing(r: State, n: nat)
    requires Referenced(r.info, {})
    requires forall id :: id in r.info ==> r.info[id].refCount >= 0
    ensures Prune(r, n) == r
  {
    if n > 0 {
      PruneNothing(r, n - 1);
    }
  }

  // ---------- The round trip ----------

  /** The new id of every entry. */
  ghost function Naming(s: State): map<nat, nat> {
    map id | id in s.info :: Renumber(s, id)
  }

  /** The state after loading, before its properties are drawn out. */
  ghost predicate Restored(env: Env, s: State, t: State)
    requires forall n :: 0 <= n < |Order(s)| ==> Order(s)[n] in s.info
  {
    && t.key == s.key && t.idCount == |Order(s)| && t.newCount == |NewIds(s.info, {})| && t.triedCount == |TriedIds(s.info)|
    && LoadedIndex(|Order(s)|, t.info.Keys, t.pos, t.random)
    && LoadedAddr(s.info, Order(s), |Order(s)|, t.addr)
    && LoadedTried(env, s.key, s.info, Order(s), |Order(s)|, t.triedTable)
    && TableRenamed(s.newTable, t.newTable, Naming(s))
    && (forall n :: 0 <= n < |Order(s)| ==> t.info[n] == s.info[Order(s)[n]].(lastTry := 0))
  }

  lemma UsableSave(s: State)
    requires forall sl :: sl in s.newTable ==> s.newTable[sl] in s.info
    ensures Usable(Save(s))
  {
    hide BucketList, NewEntries, TriedEntries;
  }

  lemma InvPositioned(env: Env, s: State)
    requires Inv(env, s)
    ensures Positioned(env, s) && Savable(env, s)
    ensures forall sl :: sl in s.newTable ==> sl.pos < BUCKET_SIZE && sl.bucket < NEW_BUCKET_COUNT
  {
    hide Weak, Order, TriedOk, Referenced, StatsOk;
    WeakParts(env, s);
    OrderIs(s);
  }

  lemma BeforePrune(env: Env, s: State) returns (t: State)
    requires Inv(env, s)
    ensures Positioned(env, s)
    ensures Load(env, Save(s)) == Prune(t, t.idCount)
    ensures var base := LoadTried(env, AfterNew(env, s), TriedEntries(s), |TriedEntries(s)|);
            && Loaded(env, s, Order(s), |Order(s)|, base)
            && base.idCount == |Order(s)| && base.newCount == |NewIds(s.info, {})| && base.triedCount == |TriedIds(s.info)|
            && Slotted(s, s.newTable, base, t)
  {
    hide Inv, Order, NewEntries, TriedEntries, Loaded, Slotted, Seen, NewOk, LoadNew, LoadTried, LoadBuckets, Prune;
    hide AddrOk, TriedOk, IdsBelow, NewIds, TriedIds, BucketList;
    InvPositioned(env, s);
    UsableSave(s);
    EntriesInOrder(s);
    SavedBuckets(s);
    LoadTriedLoads(env, s, |TriedEntries(s)|);
    var base := LoadTried(env, AfterNew(env, s), TriedEntries(s), |TriedEntries(s)|);
    SlottedStart(env, s, base);
    BucketsLoad(env, s, base, NEW_BUCKET_COUNT);
    SeenAll(s.newTable, NEW_BUCKET_COUNT);
    t := LoadBuckets(env, base, Save(s).buckets, NEW_BUCKET_COUNT, |NewIds(s.info, {})|, true);
  }

  /** The restored entries have their references back, so there is nothing to prune. */
  lemma SlottedRestored(env: Env, s: State, base: State, t: State)
    requires Inv(env, s) && Positioned(env, s) && Slotted(s, s.newTable, base, t) && Loaded(env, s, Order(s), |Order(s)|, base)
    requires base.idCount == |Order(s)| && base.newCount == |NewIds(s.info, {})| && base.triedCount == |TriedIds(s.info)|
    ensures Restored(env, s, t)
    ensures Referenced(t.info, {}) && forall id :: id in t.info ==> t.info[id].refCount >= 0
  {
    hide Order, Renumber, SlotsOf, NewIds, TriedIds, Weak, LoadedAddr, LoadedTried, StatsOk, IdsBelow;
    assert t.info.Keys == base.info.Keys;
    forall n | 0 <= n < |Order(s)|
      ensures t.info[n] == s.info[Order(s)[n]].(lastTry := 0)
    {
      assert s.info[Order(s)[n]].refCount == |SlotsOf(s.newTable, Order(s)[n])|;
    }
    forall id | id in t.info ensures t.info[id].inTried || t.info[id].refCount > 0 {
      assert Order(s)[id] in s.info;
    }
  }

  lemma LoadRestores(env: Env, s: State)
    requires Inv(env, s)
    ensures Positioned(env, s) && Restored(env, s, Load(env, Save(s)))
  {
    hide Inv, Order, Loaded, Slotted, Restored, Prune, Positioned, NewIds, TriedIds;
    hide Load, Save, LoadTried, AfterNew, TriedEntries, Referenced;
    var t := BeforePrune(env, s);
    PositionedParts(env, s);
    SlottedRestored(env, s, LoadTried(env, AfterNew(env, s), TriedEntries(s), |TriedEntries(s)|), t);
    PruneNothing(t, t.idCount);
  }

  lemma PositionedParts(env: Env, s: State)
    requires Positioned(env, s)
    ensures forall n :: 0 <= n < |Order(s)| ==> Order(s)[n] in s.info
    ensures forall sl :: sl in s.newTable ==> s.newTable[sl] in s.info
    ensures IdsBelow(s)
  {
    hide Order, NewOk, IdsBelow;
  }

  lemma NamingBijective(s: State, ids: set<nat>)
    requires IdsBelow(s) && forall n :: n in ids <==> 0 <= n < |Order(s)|
    ensures Naming(s).Keys == s.info.Keys
    ensures forall i, j :: i in Naming(s) && j in Naming(s) && i != j ==> Naming(s)[i] != Naming(s)[j]
    ensures forall i :: i in Naming(s) ==> Naming(s)[i] in ids
    ensures forall k :: k in ids ==> exists i :: i in Naming(s) && Naming(s)[i] == k
  {
    hide Order, Renumber, IdsBelow;
    OrderIs(s);
    var name := Naming(s);
    forall i, j | i in name && j in name && i != j ensures name[i] != name[j] {
      assert Order(s)[name[i]] == i && Order(s)[name[j]] == j;
    }
    forall k | k in ids ensures exists i :: i in name && name[i] == k {
      assert Order(s)[k] in name && name[Order(s)[k]] == k;
    }
  }

  lemma NamedEntries(s: State, t: State)
    requires IdsBelow(s) && forall n :: 0 <= n < |Order(s)| ==> Order(s)[n] in s.info
    requires forall n :: 0 <= n < |Order(s)| ==> n in t.info && t.info[n] == s.info[Order(s)[n]].(lastTry := 0)
    ensures forall i :: i in Naming(s) ==> Naming(s)[i] in t.info && t.info[Naming(s)[i]] == s.info[i].(lastTry := 0)
  {
    hide Order, Renumber, IdsBelow;
    OrderIs(s);
    forall i | i in Naming(s) ensures Naming(s)[i] in t.info && t.info[Naming(s)[i]] == s.info[i].(lastTry := 0) {
      assert Order(s)[Naming(s)[i]] == i;
    }
  }

  lemma RestoredFields(env: Env, s: State, t: State)
    requires (forall n :: 0 <= n < |Order(s)| ==> Order(s)[n] in s.info) && Restored(env, s, t)
    ensures t.key == s.key && t.newCount == |NewIds(s.info, {})| && t.triedCount == |TriedIds(s.info)|
    ensures TableRenamed(s.newTable, t.newTable, Naming(s))
    ensures LoadedTried(env, s.key, s.info, Order(s), |Order(s)|, t.triedTable)
    ensures forall n :: n in t.info.Keys <==> 0 <= n < |Order(s)|
    ensures forall n :: 0 <= n < |Order(s)| ==> t.info[n] == s.info[Order(s)[n]].(lastTry := 0)
  {
    hide Order, NewIds, TriedIds, TableRenamed, LoadedAddr, LoadedTried, Naming;
  }

  lemma CountsEqual(env: Env, s: State)
    requires Weak(env, s, {})
    ensures s.newCount == |NewIds(s.info, {})| && s.triedCount == |TriedIds(s.info)|
    ensures TriedOk(env, s.key, s.info, s.triedTable)
  {
    hide RandomOk, AddrOk, NewOk, TriedOk, NewIds, TriedIds;
  }

  lemma RestoredRenames(env: Env, s: State, t: State)
    requires Inv(env, s) && Positioned(env, s) && Restored(env, s, t)
    ensures Renamed(s, t, Naming(s))
  {
    hide Inv, Sound, Order, Naming, Restored, Positioned, TriedOk, NewIds, TriedIds, LoadedTried, TableRenamed, IdsBelow, Renamed;
    PositionedParts(env, s);
    InvCounts(env, s);
    RestoredFields(env, s, t);
    NamingBijective(s, t.info.Keys);
    NamedEntries(s, t);
    TriedRenamed(env, s, t);
    RenamedFrom(s, t, Naming(s));
  }

  lemma InvCounts(env: Env, s: State)
    requires Inv(env, s)
    ensures s.newCount == |NewIds(s.info, {})| && s.triedCount == |TriedIds(s.info)|
    ensures TriedOk(env, s.key, s.info, s.triedTable)
  {
    hide Weak, NewIds, TriedIds, TriedOk, StatsOk, Referenced;
    CountsEqual(env, s);
  }

  lemma RenamedFrom(s: State, t: State, name: map<nat, nat>)
    requires name.Keys == s.info.Keys
    requires forall i, j :: i in name && j in name && i != j ==> name[i] != name[j]
    requires forall i :: i in name ==> name[i] in t.info && t.info[name[i]] == s.info[i].(lastTry := 0)
    requires forall k :: k in t.info.Keys ==> exists i :: i in name && name[i] == k
    requires t.key == s.key && t.newCount == s.newCount && t.triedCount == s.triedCount
    requires TableRenamed(s.newTable, t.newTable, name) && TableRenamed(s.triedTable, t.triedTable, name)
    ensures Renamed(s, t, name)
  {
    hide TableRenamed;
  }

  lemma TriedRenamed(env: Env, s: State, t: State)
    requires TriedOk(env, s.key, s.info, s.triedTable) && IdsBelow(s)
    requires forall n :: 0 <= n < |Order(s)| ==> Order(s)[n] in s.info
    requires LoadedTried(env, s.key, s.info, Order(s), |Order(s)|, t.triedTable)
    ensures TableRenamed(s.triedTable, t.triedTable, Naming(s))
  {
    hide Order, Renumber, TriedSlot;
    OrderIs(s);
    forall sl | sl in s.triedTable
      ensures sl in t.triedTable && s.triedTable[sl] in Naming(s) && t.triedTable[sl] == Naming(s)[s.triedTable[sl]]
    {
      assert Order(s)[Renumber(s, s.triedTable[sl])] == s.triedTable[sl];
    }
    forall sl | sl in t.triedTable ensures sl in s.triedTable {
      assert Order(s)[t.triedTable[sl]] in s.info;
    }
  }

  // ---------- The loaded state satisfies the invariant ----------

  lemma RestoredIndex(s: State, t: State)
    requires LoadedIndex(|Order(s)|, t.info.Keys, t.pos, t.random)
    ensures RandomOk(t.info.Keys, t.pos, t.random)
  {
    hide Order;
  }

  lemma RestoredAddr(env: Env, s: State, t: State)
    requires (forall n :: 0 <= n < |Order(s)| ==> Order(s)[n] in s.info) && Restored(env, s, t)
    ensures AddrOk(t.info, t.idCount, t.addr)
  {
    hide Order, LoadedTried, TableRenamed, NewIds, TriedIds;
  }

  lemma RestoredTried(env: Env, s: State, t: State)
    requires (forall n :: 0 <= n < |Order(s)| ==> Order(s)[n] in s.info) && Restored(env, s, t)
    ensures TriedOk(env, t.key, t.info, t.triedTable)
  {
    hide Order, LoadedAddr, TableRenamed, NewIds, TriedIds, TriedSlot;
  }

  lemma NewIdsFirst(s: State, t: State)
    requires IdsBelow(s) && forall n :: 0 <= n < |Order(s)| ==> Order(s)[n] in s.info
    requires forall n :: n in t.info <==> 0 <= n < |Order(s)|
    requires forall n :: 0 <= n < |Order(s)| ==> t.info[n] == s.info[Order(s)[n]].(lastTry := 0)
    ensures NewIds(t.info, {}) == Range(|NewIds(s.info, {})|) && t.info.Keys == Range(|Order(s)|)
  {
    hide Order, Renumber, IdsBelow;
    OrderIs(s);
    forall k ensures k in NewIds(t.info, {}) <==> k in Range(|NewIds(s.info, {})|) {
      if 0 <= k < |Order(s)| {
        assert t.info[k].inTried == s.info[Order(s)[k]].inTried;
      }
    }
  }

  lemma RestoredCounts(env: Env, s: State, t: State)
    requires (forall n :: 0 <= n < |Order(s)| ==> Order(s)[n] in s.info) && Restored(env, s, t) && IdsBelow(s)
    ensures CountsOk(t.info, t.newCount, t.triedCount, {})
  {
    hide Order, LoadedAddr, TableRenamed, LoadedTried, NewIds, TriedIds, IdsBelow, Renumber;
    OrderIs(s);
    IdsSplit(t.info);
    NewIdsFirst(s, t);
    assert |t.info| == |t.info.Keys|;
  }

  lemma RenamedSlots(s: State, t: State, id: nat)
    requires Renamed(s, t, Naming(s)) && id in s.info
    ensures SlotsOf(t.newTable, Naming(s)[id]) == SlotsOf(s.newTable, id)
  {
    hide Renumber;
    forall sl ensures sl in SlotsOf(t.newTable, Naming(s)[id]) <==> sl in SlotsOf(s.newTable, id) {
      if sl in s.newTable {
        assert t.newTable[sl] == Naming(s)[s.newTable[sl]];
      }
    }
  }

  lemma RestoredNew(env: Env, s: State, t: State)
    requires NewOk(env, s.key, s.info, s.newTable, {}) && Renamed(s, t, Naming(s))
    ensures NewOk(env, t.key, t.info, t.newTable, {})
  {
    hide Renumber, SlotsOf;
    forall k | k in t.info
      ensures 0 <= t.info[k].refCount <= NEW_BUCKETS_PER_ADDRESS && t.info[k].refCount == |SlotsOf(t.newTable, k)|
    {
      var i :| i in Naming(s) && Naming(s)[i] == k;
      RenamedSlots(s, t, i);
      assert s.info[i].refCount == |SlotsOf(s.newTable, i)|;
    }
    forall sl | sl in t.newTable
      ensures sl.bucket < NEW_BUCKET_COUNT && t.newTable[sl] in t.info && !t.info[t.newTable[sl]].inTried
      ensures sl.pos == env.position(t.key, t.info[t.newTable[sl]].service, true, sl.bucket)
    {
      assert t.newTable[sl] == Naming(s)[s.newTable[sl]];
    }
  }

  lemma RestoredStats(s: State, t: State, name: map<nat, nat>)
    requires Renamed(s, t, name) && StatsOk(s.info) && Referenced(s.info, {})
    ensures StatsOk(t.info) && Referenced(t.info, {})
  {
    forall k | k in t.info
      ensures t.info[k].lastTry >= 0 && t.info[k].lastSuccess >= 0 && (t.info[k].inTried ==> t.info[k].lastSuccess != 0)
      ensures t.info[k].inTried || t.info[k].refCount > 0
    {
      var i :| i in name && name[i] == k;
      assert i in s.info;
    }
  }

  /** Saving a manager and loading the file into a fresh one gives back the same manager: the same addresses in the
      same slots of both tables, with the same statistics, reference counts and totals, and the invariant holds.
      Only the ids, the order of vRandom and the memory-only times of the last tries differ. */
  lemma SaveLoad(env: Env, s: State)
    requires Inv(env, s)
    ensures forall sl :: sl in s.newTable ==> s.newTable[sl] in s.info
    ensures Renamed(s, Load(env, Save(s)), Naming(s))
    ensures Inv(env, Load(env, Save(s)))
  {
    hide Weak, Order, Load, Save, Restored, Renamed, Naming, Positioned, NewOk, TriedOk, AddrOk, RandomOk, CountsOk, StatsOk, Referenced;
    LoadRestores(env, s);
    PositionedParts(env, s);
    var t := Load(env, Save(s));
    RestoredRenames(env, s, t);
    WeakParts(env, s);
    RestoredParts(env, s, t);
    RestoredIndex(s, t);
    RestoredAddr(env, s, t);
    RestoredTried(env, s, t);
    RestoredCounts(env, s, t);
    RestoredNew(env, s, t);
    RestoredStats(s, t, Naming(s));
    WeakFrom(env, t);
  }

  lemma RestoredParts(env: Env, s: State, t: State)
    requires (forall n :: 0 <= n < |Order(s)| ==> Order(s)[n] in s.info) && Restored(env, s, t)
    ensures LoadedIndex(|Order(s)|, t.info.Keys, t.pos, t.random) && t.key == s.key
  {
    hide Order, LoadedIndex, LoadedAddr, LoadedTried, TableRenamed, NewIds, TriedIds;
  }

  /** By slot: the loaded tables are occupied where the saved ones were, by the same entries. */
  lemma SameOccupancy(env: Env, s: State)
    requires Inv(env, s)
    ensures forall sl :: sl in s.newTable ==> s.newTable[sl] in s.info
    ensures var t := Load(env, Save(s));
            && t.newTable.Keys == s.newTable.Keys && t.triedTable.Keys == s.triedTable.Keys
            && (forall sl :: sl in s.newTable ==>
                  t.newTable[sl] in t.info && t.info[t.newTable[sl]] == s.info[s.newTable[sl]].(lastTry := 0))
            && (forall sl :: sl in s.triedTable ==>
                  (s.triedTable[sl] in s.info && t.triedTable[sl] in t.info
                   && t.info[t.triedTable[sl]] == s.info[s.triedTable[sl]].(lastTry := 0)))
  {
    hide Inv, Load, Save, Renumber;
    SaveLoad(env, s);
  }

  // ---------- Clear ----------

  /** Clear, which Unserialize calls first: it resets the tables and counters but not mapInfo and mapAddr. */
  function Clear(s: State, key: nat): State {
    s.(key := key, idCount := 0, random := [], triedCount := 0, newCount := 0, newTable := map[], triedTable := map[])
  }

  /** Clear restores a valid, empty manager iff there were no entries to begin with. */
  lemma ClearIsEnough(env: Env, s: State, key: nat)
    requires Inv(env, s) && key != 0
    ensures Inv(env, Clear(s, key)) <==> s.info == map[]
    ensures s.info == map[] ==> Clear(s, key) == Empty(key)
  {
    hide NewOk, TriedOk, CountsOk;
    if s.info == map[] {
      assert s.addr == map[] && s.pos == map[];
      EmptyInv(env, key);
    } else {
      assert s.info.Keys != {};
      var id :| id in s.info;
      assert !RandomOk(Clear(s, key).info.Keys, Clear(s, key).pos, Clear(s, key).random);
    }
  }

  // ---------- Any file: the index stays sound while loading ----------

  /** vRandom is sound and all ids lie below n. */
  ghost predicate IndexedBelow(r: State, n: nat) {
    RandomOk(r.info.Keys, r.pos, r.random) && forall id :: id in r.info ==> id < n
  }

  lemma {:induction false} LoadNewIndexed(env: Env, key: nat, entries: seq<Stored>, k: nat, usable: bool)
    requires k <= |entries|
    ensures IndexedBelow(LoadNew(env, Empty(key), entries, k, usable), k)
  {
    hide LoadNewOne;
    if k > 0 {
      hide IndexedBelow;
      LoadNewIndexed(env, key, entries, k - 1, usable);
      LoadNewOneIndexed(env, LoadNew(env, Empty(key), entries, k - 1, usable), k - 1, entries[k - 1], usable);
    }
  }

  lemma LoadNewOneIndexed(env: Env, r: State, n: nat, e: Stored, usable: bool)
    requires IndexedBelow(r, n)
    ensures IndexedBelow(LoadNewOne(env, r, n, e, usable), n + 1)
  {
    hide RandomOk, FromStored;
    IndexOneMore(r, n, FromStored(e));
    assert LoadNewOne(env, r, n, e, usable).info.Keys == r.info.Keys + {n};
  }

  lemma IndexOneMore(r: State, n: nat, i: Info)
    requires IndexedBelow(r, n)
    ensures RandomOk(r.info[n := i].Keys, r.pos[n := |r.random|], r.random + [n])
    ensures r.info[n := i].Keys == r.info.Keys + {n}
  {
    hide RandomOk;
    assert r.info[n := i].Keys == r.info.Keys + {n};
    AppendIndex(r.info.Keys, r.pos, r.random, n);
  }

  lemma {:induction false} LoadTriedIndexed(env: Env, s: State, entries: seq<Stored>, k: nat)
    requires k <= |entries| && IndexedBelow(s, s.idCount)
    ensures IndexedBelow(LoadTried(env, s, entries, k), LoadTried(env, s, entries, k).idCount)
  {
    hide RandomOk, FromStored, TriedSlot;
    if k > 0 {
      LoadTriedIndexed(env, s, entries, k - 1);
      var r := LoadTried(env, s, entries, k - 1);
      IndexOneMore(r, r.idCount, FromStored(entries[k - 1]).(inTried := true));
    }
  }

  lemma {:induction false} LoadBucketIndexed(env: Env, s: State, b: nat, list: seq<int>, size: nat, usable: bool)
    ensures var r := LoadBucket(env, s, b, list, size, usable);
            r.info.Keys == s.info.Keys && r.pos == s.pos && r.random == s.random && r.idCount == s.idCount
  {
    if list != [] {
      var front := list[..|list| - 1];
      LoadBucketIndexed(env, s, b, front, size, usable);
      var r := LoadBucket(env, s, b, front, size, usable);
      LoadIndexIndexed(env, r, b, list[|list| - 1], size, usable);
    }
  }

  lemma LoadIndexIndexed(env: Env, s: State, b: nat, index: int, size: nat, usable: bool)
    ensures var r := LoadIndex(env, s, b, index, size, usable);
            r.info.Keys == s.info.Keys && r.pos == s.pos && r.random == s.random && r.idCount == s.idCount
  {
  }

  lemma {:induction false} LoadBucketsIndexed(env: Env, s: State, buckets: seq<seq<int>>, n: nat, size: nat, usable: bool)
    requires n <= |buckets|
    ensures var r := LoadBuckets(env, s, buckets, n, size, usable);
            r.info.Keys == s.info.Keys && r.pos == s.pos && r.random == s.random && r.idCount == s.idCount
    decreases n
  {
    if n > 0 {
      LoadBucketsIndexed(env, s, buckets, n - 1, size, usable);
      LoadBucketIndexed(env, LoadBuckets(env, s, buckets, n - 1, size, usable), n - 1, buckets[n - 1], size, usable);
    }
  }

  lemma {:induction false} PruneIndexed(s: State, n: nat)
    requires RandomOk(s.info.Keys, s.pos, s.random)
    ensures RandomOk(Prune(s, n).info.Keys, Prune(s, n).pos, Prune(s, n).random)
  {
    hide RandomOk;
    if n > 0 {
      PruneIndexed(s, n - 1);
      var r := Prune(s, n - 1);
      if n - 1 in r.info {
        IsIndexed(r.info.Keys, r.pos, r.random, n - 1);
        DeleteIndexed(r, n - 1);
      }
    }
  }

  lemma DeleteIndexed(s: State, id: nat)
    requires RandomOk(s.info.Keys, s.pos, s.random) && id in s.info
    ensures id in s.pos && s.pos[id] < |s.random|
    ensures RandomOk(Delete(s, id).info.Keys, Delete(s, id).pos, Delete(s, id).random)
  {
    hide RandomOk;
    IsIndexed(s.info.Keys, s.pos, s.random, id);
    SwapIndex(s, s.pos[id], |s.random| - 1);
    var r := SwapRandom(s, s.pos[id], |s.random| - 1);
    assert (r.info - {id}).Keys == r.info.Keys - {id};
    DropLast(r.info.Keys, r.pos, r.random);
  }
}
