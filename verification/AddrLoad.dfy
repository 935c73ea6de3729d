/** Loading a peers file that this program need not have written: src/addrman.h. Whatever its version,
    bucket count and positions, sound entries give a sound manager. */
module AddrLoad {
  import opened Basics
  import opened AddrState
  import opened AddrMoves
  import opened AddrAdd
  import opened AddrPeers
  import opened AddrFile

  /** The addresses of the first k entries. */
  function AddrsOf(entries: seq<Stored>, k: nat): set<NetAddr>
    requires k <= |entries|
  {
    set n | 0 <= n < k :: entries[n].service.addr
  }

  /** A key, no address twice, and the time stamps Check_ asks for. */
  ghost predicate GoodEntries(p: Peers) {
    && p.key != 0
    && NoAddressTwice(p.newEntries + p.triedEntries)
    && (forall n :: 0 <= n < |p.newEntries| ==> p.newEntries[n].lastSuccess >= 0)
    && (forall n :: 0 <= n < |p.triedEntries| ==> p.triedEntries[n].lastSuccess > 0)
  }

  ghost predicate NoAddressTwice(entries: seq<Stored>) {
    forall m, n :: 0 <= m < n < |entries| ==> entries[m].service.addr != entries[n].service.addr
  }

  lemma NextAddressIsNew(entries: seq<Stored>, k: nat)
    requires NoAddressTwice(entries) && k < |entries|
    ensures entries[k].service.addr !in AddrsOf(entries, k)
    ensures AddrsOf(entries, k + 1) == AddrsOf(entries, k) + {entries[k].service.addr}
  {
  }

  /** While loading: the invariant but for unreferenced entries, with the addresses of the entries
      read so far; the ids below size are new. */
  ghost predicate Loading(env: Env, s: State, seen: set<NetAddr>, size: nat) {
    && Weak(env, s, {}) && StatsOk(s.info) && s.addr.Keys <= seen
    && (forall id :: id in s.info && id < size ==> !s.info[id].inTried)
  }

  // ---------- The entries of the new table ----------

  lemma AdmitLoads(env: Env, s: State, seen: set<NetAddr>, e: Stored)
    requires Loading(env, s, seen, s.idCount) && e.service.addr !in seen && e.lastSuccess >= 0
    ensures Loading(env, Admit(s, FromStored(e)), seen + {e.service.addr}, s.idCount + 1)
  {
    hide Weak;
    AdmitKeeps(env, s, FromStored(e));
  }

  /** Giving an entry a reference leaves everything else sound. */
  lemma ReferenceLoads(env: Env, s: State, seen: set<NetAddr>, size: nat, id: nat, slot: Slot)
    requires Loading(env, s, seen, size) && id in s.info && id < size && s.info[id].refCount < NEW_BUCKETS_PER_ADDRESS
    requires slot !in s.newTable && NewSlotFor(env, s.key, s.info[id], slot)
    ensures Loading(env, PutNew(s, id, slot), seen, size)
  {
    hide Weak;
    PutNewKeeps(env, s, id, slot, {});
  }

  /** The state between two rounds of the first loop, with the counters the source sets afterwards. */
  ghost function Counted(s: State, n: nat): State {
    s.(idCount := n, newCount := n)
  }

  lemma LoadNewOneIsAdmit(env: Env, s: State, n: nat, e: Stored, usable: bool)
    ensures var r := Admit(Counted(s, n), FromStored(e));
            var slot := NewSlot(env, s.key, e.service, e.source);
      Counted(LoadNewOne(env, s, n, e, usable), n + 1) == if usable || slot in s.newTable then r else PutNew(r, n, slot)
  {
    var i := FromStored(e);
    assert s.info[n := i][n := i.(refCount := 1)] == s.info[n := i.(refCount := 1)];
  }

  lemma LoadNewOneLoads(env: Env, s: State, n: nat, seen: set<NetAddr>, e: Stored, usable: bool)
    requires Loading(env, Counted(s, n), seen, n) && e.service.addr !in seen && e.lastSuccess >= 0
    ensures Loading(env, Counted(LoadNewOne(env, s, n, e, usable), n + 1), seen + {e.service.addr}, n + 1)
  {
    hide Loading, LoadNewOne;
    AdmitLoads(env, Counted(s, n), seen, e);
    LoadNewOneIsAdmit(env, s, n, e, usable);
    var slot := NewSlot(env, s.key, e.service, e.source);
    if !usable && slot !in s.newTable {
      ReferenceLoads(env, Admit(Counted(s, n), FromStored(e)), seen + {e.service.addr}, n + 1, n, slot);
    }
  }

  lemma {:induction false} NewLoads(env: Env, key: nat, all: seq<Stored>, entries: seq<Stored>, k: nat, usable: bool)
    requires key != 0 && NoAddressTwice(all) && k <= |entries| && entries <= all
    requires forall n :: 0 <= n < |entries| ==> entries[n].lastSuccess >= 0
    ensures Loading(env, Counted(LoadNew(env, Empty(key), entries, k, usable), k), AddrsOf(all, k), k)
    decreases k
  {
    hide Loading, LoadNewOne, NoAddressTwice, AddrsOf;
    if k == 0 {
      EmptyLoads(env, key, AddrsOf(all, 0));
    } else {
      NewLoads(env, key, all, entries, k - 1, usable);
      NextAddressIsNew(all, k - 1);
      LoadNewOneLoads(env, LoadNew(env, Empty(key), entries, k - 1, usable), k - 1, AddrsOf(all, k - 1), entries[k - 1], usable);
    }
  }

  lemma EmptyLoads(env: Env, key: nat, seen: set<NetAddr>)
    requires key != 0
    ensures Loading(env, Counted(Empty(key), 0), seen, 0)
  {
    EmptyInv(env, key);
  }

  // ---------- The tried entries ----------

  lemma AppendTriedIn(env: Env, key: nat, info: map<nat, Info>, triedTable: Table, id: nat, i: Info)
    requires TriedOk(env, key, info, triedTable) && id !in info && i.inTried && TriedSlot(env, key, i.service) !in triedTable
    ensures TriedOk(env, key, info[id := i], triedTable[TriedSlot(env, key, i.service) := id])
  {
  }

  lemma AppendTriedCounts(info: map<nat, Info>, newCount: int, triedCount: int, id: nat, i: Info)
    requires CountsOk(info, newCount, triedCount, {}) && id !in info && i.inTried
    ensures CountsOk(info[id := i], newCount, triedCount + 1, {})
  {
    assert NewIds(info[id := i], {}) == NewIds(info, {});
    assert TriedIds(info[id := i]) == TriedIds(info) + {id};
  }

  lemma LoadTriedOneWeak(env: Env, s: State, e: Stored)
    requires Weak(env, s, {}) && e.service.addr !in s.addr
    ensures Weak(env, LoadTriedOne(env, s, e), {})
  {
    var id, i := s.idCount, FromStored(e).(inTried := true);
    assert id !in s.info;
    hide RandomOk, AddrOk, NewOk, TriedOk, CountsOk, TriedSlot;
    if TriedSlot(env, s.key, i.service) !in s.triedTable {
      AppendIndex(s.info.Keys, s.pos, s.random, id);
      assert s.info[id := i].Keys == s.info.Keys + {id};
      AppendAddr(s.info, id, s.addr, i);
      AppendNew(env, s.key, s.info, s.newTable, {}, id, i);
      AppendTriedIn(env, s.key, s.info, s.triedTable, id, i);
      AppendTriedCounts(s.info, s.newCount, s.triedCount, id, i);
    }
  }

  lemma LoadTriedOneLoads(env: Env, s: State, seen: set<NetAddr>, size: nat, e: Stored)
    requires Loading(env, s, seen, size) && s.idCount >= size && e.service.addr !in seen && e.lastSuccess > 0
    ensures var r := LoadTriedOne(env, s, e); Loading(env, r, seen + {e.service.addr}, size) && r.idCount >= size
  {
    hide Weak, TriedSlot;
    LoadTriedOneWeak(env, s, e);
  }

  lemma {:induction false} TriedLoads(env: Env, s: State, all: seq<Stored>, entries: seq<Stored>, size: nat, k: nat)
    requires NoAddressTwice(all) && size + |entries| == |all| && all[size..] == entries && k <= |entries|
    requires forall n :: 0 <= n < |entries| ==> entries[n].lastSuccess > 0
    requires Loading(env, s, AddrsOf(all, size), size) && s.idCount == size
    ensures var r := LoadTried(env, s, entries, k); Loading(env, r, AddrsOf(all, size + k), size) && r.idCount >= size
    decreases k
  {
    hide Loading, LoadTriedOne, NoAddressTwice, AddrsOf;
    if k > 0 {
      TriedLoads(env, s, all, entries, size, k - 1);
      assert all[size + k - 1] == entries[k - 1];
      NextAddressIsNew(all, size + k - 1);
      LoadTriedOneLoads(env, LoadTried(env, s, entries, k - 1), AddrsOf(all, size + k - 1), size, entries[k - 1]);
    }
  }

  // ---------- The positions in the new table ----------

  lemma LoadIndexLoads(env: Env, s: State, seen: set<NetAddr>, b: nat, index: int, size: nat, usable: bool)
    requires Loading(env, s, seen, size) && (usable ==> b < NEW_BUCKET_COUNT)
    ensures Loading(env, LoadIndex(env, s, b, index, size, usable), seen, size)
  {
    hide Loading;
    if 0 <= index < size && index in s.info && usable {
      var slot := Slot(b, env.position(s.key, s.info[index].service, true, b));
      if slot !in s.newTable && s.info[index].refCount < NEW_BUCKETS_PER_ADDRESS {
        ReferenceLoads(env, s, seen, size, index, slot);
      }
    }
  }

  lemma {:induction false} BucketLoads(env: Env, s: State, seen: set<NetAddr>, b: nat, list: seq<int>, size: nat, usable: bool)
    requires Loading(env, s, seen, size) && (usable ==> b < NEW_BUCKET_COUNT)
    ensures Loading(env, LoadBucket(env, s, b, list, size, usable), seen, size)
    decreases |list|
  {
    hide Loading, LoadIndex;
    if list != [] {
      var front := list[..|list| - 1];
      BucketLoads(env, s, seen, b, front, size, usable);
      LoadIndexLoads(env, LoadBucket(env, s, b, front, size, usable), seen, b, list[|list| - 1], size, usable);
    }
  }

  lemma {:induction false} BucketsLoad(env: Env, s: State, seen: set<NetAddr>, buckets: seq<seq<int>>, n: nat, size: nat, usable: bool)
    requires Loading(env, s, seen, size) && n <= |buckets| && (usable ==> |buckets| <= NEW_BUCKET_COUNT)
    ensures Loading(env, LoadBuckets(env, s, buckets, n, size, usable), seen, size)
    decreases n
  {
    hide Loading, LoadBucket;
    if n > 0 {
      BucketsLoad(env, s, seen, buckets, n - 1, size, usable);
      BucketLoads(env, LoadBuckets(env, s, buckets, n - 1, size, usable), seen, n - 1, buckets[n - 1], size, usable);
    }
  }

  // ---------- Pruning ----------

  /** Pruning up to n keeps the invariant and leaves no unreferenced entry below n. */
  lemma {:induction false} PrunedSound(env: Env, s: State, n: nat)
    requires Weak(env, s, {}) && StatsOk(s.info)
    ensures var r := Prune(s, n);
      && Weak(env, r, {}) && StatsOk(r.info) && r.idCount == s.idCount
      && (forall id :: id in r.info && id < n ==> r.info[id].inTried || r.info[id].refCount > 0)
    decreases n
  {
    hide Weak, Delete;
    if n > 0 {
      PrunedSound(env, s, n - 1);
      var r := Prune(s, n - 1);
      if n - 1 in r.info {
        RefCountInRange(env, r, {}, n - 1);
        if !r.info[n - 1].inTried && r.info[n - 1].refCount == 0 {
          DeleteKeeps(env, r, n - 1, {});
          DeletedInfo(r, n - 1);
        }
      }
    }
  }

  lemma DeletedInfo(s: State, id: nat)
    requires id in s.info && id in s.pos && s.pos[id] < |s.random|
    ensures Delete(s, id).info == s.info - {id} && Delete(s, id).idCount == s.idCount
  {
  }

  // ---------- The whole file ----------

  /** A file with sound entries, in whatever version and with whatever positions, loads into a
      manager that satisfies the invariant. */
  lemma LoadSound(env: Env, p: Peers)
    requires GoodEntries(p) && Parsable(p)
    ensures Inv(env, Load(env, p))
  {
    hide Weak, NoAddressTwice, LoadNew, LoadTried, LoadBuckets, Prune, AddrsOf, Usable;
    var all, size, usable := p.newEntries + p.triedEntries, |p.newEntries|, Usable(p);
    NewLoads(env, p.key, all, p.newEntries, size, usable);
    var s1 := Counted(LoadNew(env, Empty(p.key), p.newEntries, size, usable), size);
    TriedLoads(env, s1, all, p.triedEntries, size, |p.triedEntries|);
    var s2 := LoadTried(env, s1, p.triedEntries, |p.triedEntries|);
    BucketsLoad(env, s2, AddrsOf(all, |all|), p.buckets, |p.buckets|, size, usable);
    var s3 := LoadBuckets(env, s2, p.buckets, |p.buckets|, size, usable);
    PrunedSound(env, s3, s3.idCount);
    IdsBelowCount(env, Load(env, p));
  }

  lemma IdsBelowCount(env: Env, s: State)
    requires Weak(env, s, {})
    ensures forall id :: id in s.info ==> id < s.idCount
  {
    hide RandomOk, NewOk, TriedOk, CountsOk;
  }

  /** For the streams Unserialize accepts. */
  lemma ParsedSound(env: Env, t: seq<Token>)
    requires Parse(t).Some? && GoodEntries(Parse(t).value)
    ensures Inv(env, Load(env, Parse(t).value))
  {
    hide Parse, GoodEntries, Inv, Load;
    ParsedBuckets(t);
    LoadSound(env, Parse(t).value);
  }
}
