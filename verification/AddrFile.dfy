/** The stream format of the address manager and the two methods that write and read it:
    Serialize and Unserialize in src/addrman.h. The stream is a sequence of items; what it
    holds is the record `Peers`. */
module AddrFile {
  import opened Basics
  import opened AddrState
  import opened AddrAdd
  import opened AddrCheck
  import opened AddrPeers
  import AddrMan

  /** The items of the stream; their own encodings are not modelled. */
  datatype Token = TByte(byte: nat) | TKey(key: nat) | TInt(n: int) | TEntry(entry: Stored)

  function EntryTokens(entries: seq<Stored>): (t: seq<Token>)
    ensures |t| == |entries|
  {
    seq(|entries|, k requires 0 <= k < |entries| => TEntry(entries[k]))
  }

  function IntTokens(list: seq<int>): (t: seq<Token>)
    ensures |t| == |list|
  {
    seq(|list|, k requires 0 <= k < |list| => TInt(list[k]))
  }

  function BucketTokens(buckets: seq<seq<int>>, n: nat): seq<Token>
    requires n <= |buckets|
  {
    if n == 0 then []
    else BucketTokens(buckets, n - 1) + ([TInt(|buckets[n - 1]|)] + IntTokens(buckets[n - 1]))
  }

  function Header(p: Peers): seq<Token> {
    [TByte(p.version), TByte(p.keySize), TKey(p.key), TInt(|p.newEntries|), TInt(|p.triedEntries|), TInt(p.bucketWord)]
  }

  /** The stream for a file content. */
  function Write(p: Peers): seq<Token> {
    Header(p) + (EntryTokens(p.newEntries) + (EntryTokens(p.triedEntries) + BucketTokens(p.buckets, |p.buckets|)))
  }

  /** The number of buckets a header announces. */
  function BucketCount(version: nat, word: nat): nat {
    if version != 0 then FlipBit30(word) else word
  }

  // ---------- Reading ----------

  /** Reads n entries; None if the stream ends or holds something else. */
  function ReadEntries(t: seq<Token>, n: nat): Option<(seq<Stored>, seq<Token>)> {
    if n == 0 then Some(([], t))
    else if t == [] || !t[0].TEntry? then None
    else match ReadEntries(t[1..], n - 1)
      case None => None
      case Some((es, rest)) => Some(([t[0].entry] + es, rest))
  }

  function ReadInts(t: seq<Token>, n: nat): Option<(seq<int>, seq<Token>)> {
    if n == 0 then Some(([], t))
    else if t == [] || !t[0].TInt? then None
    else match ReadInts(t[1..], n - 1)
      case None => None
      case Some((ns, rest)) => Some(([t[0].n] + ns, rest))
  }

  /** Reads n buckets, each a size followed by that many indexes; a negative size reads nothing. */
  function ReadBuckets(t: seq<Token>, n: nat): Option<seq<seq<int>>>
    decreases n
  {
    if n == 0 then Some([])
    else if t == [] || !t[0].TInt? then None
    else match ReadInts(t[1..], if t[0].n > 0 then t[0].n else 0)
      case None => None
      case Some((list, rest)) =>
        match ReadBuckets(rest, n - 1)
        case None => None
        case Some(buckets) => Some([list] + buckets)
  }

  /** The content of a stream; None where Unserialize throws, and for negative counts. */
  function Parse(t: seq<Token>): Option<Peers> {
    if |t| < 6 || !t[0].TByte? || !t[1].TByte? || !t[2].TKey? || !t[3].TInt? || !t[4].TInt? || !t[5].TInt? then None
    else if t[1].byte != 32 || t[3].n < 0 || t[4].n < 0 || t[5].n < 0 then None
    else match ReadEntries(t[6..], t[3].n)
      case None => None
      case Some((news, rest)) =>
        match ReadEntries(rest, t[4].n)
        case None => None
        case Some((trieds, rest)) =>
          match ReadBuckets(rest, BucketCount(t[0].byte, t[5].n))
          case None => None
          case Some(buckets) => Some(Content(t[0].byte, t[1].byte, t[2].key, t[5].n, news, trieds, buckets))
  }

  lemma {:induction false} ReadEntriesBack(entries: seq<Stored>, rest: seq<Token>)
    ensures ReadEntries(EntryTokens(entries) + rest, |entries|) == Some((entries, rest))
  {
    var t := EntryTokens(entries) + rest;
    if entries == [] {
      assert t == rest;
    } else {
      ReadEntriesBack(entries[1..], rest);
      assert t[1..] == EntryTokens(entries[1..]) + rest;
      assert [entries[0]] + entries[1..] == entries;
    }
  }

  lemma {:induction false} ReadIntsBack(list: seq<int>, rest: seq<Token>)
    ensures ReadInts(IntTokens(list) + rest, |list|) == Some((list, rest))
  {
    var t := IntTokens(list) + rest;
    if list == [] {
      assert t == rest;
    } else {
      ReadIntsBack(list[1..], rest);
      assert t[1..] == IntTokens(list[1..]) + rest;
      assert [list[0]] + list[1..] == list;
    }
  }

  /** The tokens of the buckets from n on. */
  function TailTokens(buckets: seq<seq<int>>): seq<Token> {
    if buckets == [] then [] else [TInt(|buckets[0]|)] + (IntTokens(buckets[0]) + TailTokens(buckets[1..]))
  }

  lemma {:induction false} BucketTokensSplit(buckets: seq<seq<int>>, n: nat)
    requires n <= |buckets|
    ensures BucketTokens(buckets, n) + TailTokens(buckets[n..]) == TailTokens(buckets)
  {
    if n == 0 {
      assert buckets[0..] == buckets;
      assert [] + TailTokens(buckets) == TailTokens(buckets);
    } else {
      BucketTokensSplit(buckets, n - 1);
      assert buckets[n - 1..][1..] == buckets[n..];
      var a, h, l, r := BucketTokens(buckets, n - 1), [TInt(|buckets[n - 1]|)], IntTokens(buckets[n - 1]), TailTokens(buckets[n..]);
      assert (a + (h + l)) + r == a + (h + (l + r));
    }
  }

  lemma {:induction false} ReadBucketsBack(buckets: seq<seq<int>>)
    ensures ReadBuckets(TailTokens(buckets), |buckets|) == Some(buckets)
  {
    if buckets != [] {
      var rest := IntTokens(buckets[0]) + TailTokens(buckets[1..]);
      assert TailTokens(buckets)[1..] == rest;
      ReadIntsBack(buckets[0], TailTokens(buckets[1..]));
      ReadBucketsBack(buckets[1..]);
      assert [buckets[0]] + buckets[1..] == buckets;
    }
  }

  /** Reading a written stream gives its content back. */
  lemma ParseWrite(p: Peers)
    requires p.keySize == 32 && |p.buckets| == BucketCount(p.version, p.bucketWord)
    ensures Parse(Write(p)) == Some(p)
  {
    var n := |p.buckets|;
    BucketTokensSplit(p.buckets, n);
    assert p.buckets[n..] == [];
    assert BucketTokens(p.buckets, n) + [] == BucketTokens(p.buckets, n);
    ReadBucketsBack(p.buckets);
    ReadEntriesBack(p.triedEntries, BucketTokens(p.buckets, n));
    ReadEntriesBack(p.newEntries, EntryTokens(p.triedEntries) + BucketTokens(p.buckets, n));
    assert Write(p)[6..] == EntryTokens(p.newEntries) + (EntryTokens(p.triedEntries) + BucketTokens(p.buckets, n));
  }

  /** What Serialize writes for a valid manager, Unserialize reads as what was saved. */
  lemma SaveParses(env: Env, s: State)
    requires Inv(env, s)
    ensures forall sl :: sl in s.newTable ==> s.newTable[sl] in s.info
    ensures Parse(Write(Save(s))) == Some(Save(s))
  {
    hide Inv, Write, Parse, NewEntries, TriedEntries, BucketList;
    InvPositioned(env, s);
    PositionedParts(env, s);
    ParseWrite(Save(s));
  }

  // ---------- Serialize ----------

  /** The numbers mapUnkIds holds for the ids below n: how many new entries precede each. */
  ghost predicate Numbered(info: map<nat, Info>, n: nat, unk: map<nat, int>) {
    forall id :: id in info && id < n ==> id in unk && unk[id] == |Asc(NewIds(info, {}), id)|
  }

  /** The first loop of Serialize: numbers all ids and writes the entries of the new table. */
  method WriteNew(m: AddrMan.AddrMan) returns (unk: map<nat, int>, out: seq<Token>)
    requires m.Shape() && Inv(m.env, m.Model())
    ensures Numbered(m.info, m.idCount, unk)
    ensures out == EntryTokens(NewEntries(m.Model()))
  {
    hide Inv, Asc, NewEntries;
    ghost var news := NewIds(m.info, {});
    unk, out := map[], [];
    var nIds := 0;
    AscStart(m.info, news);
    NewFromRefs(m.env, m.Model());
    for id := 0 to m.idCount
      invariant Numbered(m.info, id, unk)
      invariant Written(m.info, news, id, out) && nIds == |out| == |Asc(news, id)|
    {
      AscStep(m.info, news, id, out);
      if id in m.info {
        unk := unk[id := nIds];
        if m.info[id].refCount != 0 {
          AscShort(m.env, m.Model(), id);
          assert nIds != m.newCount;
          out := out + [TEntry(ToStored(m.info[id]))];
          nIds := nIds + 1;
        }
      }
    }
    WrittenNew(m.Model(), out);
  }

  /** `out` is the entries of the members of `ids` below n, in order. */
  ghost predicate Written(info: map<nat, Info>, ids: set<nat>, n: nat, out: seq<Token>) {
    && |out| == |Asc(ids, n)|
    && forall k :: 0 <= k < |out| ==> Asc(ids, n)[k] in info && out[k] == TEntry(ToStored(info[Asc(ids, n)[k]]))
  }

  lemma AscStart(info: map<nat, Info>, ids: set<nat>)
    ensures Written(info, ids, 0, []) && |Asc(ids, 0)| == 0
  {
  }

  lemma AscStep(info: map<nat, Info>, ids: set<nat>, n: nat, out: seq<Token>)
    requires Written(info, ids, n, out) && ids <= info.Keys
    ensures n in ids ==> Written(info, ids, n + 1, out + [TEntry(ToStored(info[n]))]) && |Asc(ids, n + 1)| == |Asc(ids, n)| + 1
    ensures n !in ids ==> Written(info, ids, n + 1, out) && |Asc(ids, n + 1)| == |Asc(ids, n)|
  {
  }

  lemma NewFromRefs(env: Env, s: State)
    requires Inv(env, s)
    ensures forall id :: id in s.info ==> (s.info[id].refCount != 0 <==> id in NewIds(s.info, {}))
  {
    hide Weak, StatsOk;
    WeakParts(env, s);
    hide RandomOk, AddrOk, NewOk, TriedOk, CountsOk;
    forall id | id in s.info ensures s.info[id].refCount != 0 <==> id in NewIds(s.info, {}) {
      RefCountInRange(env, s, {}, id);
      if s.info[id].inTried {
        TriedUnreferenced(env, s.key, s.info, s.newTable, id);
      }
    }
  }

  /** Before a new id is written, fewer than newCount entries have been. */
  lemma AscShort(env: Env, s: State, id: nat)
    requires Inv(env, s) && id in NewIds(s.info, {}) && id < s.idCount
    ensures |Asc(NewIds(s.info, {}), id)| < s.newCount
  {
    hide Weak, StatsOk, Referenced;
    CountsEqual(env, s);
    InvPositioned(env, s);
    PositionedParts(env, s);
    hide Positioned, Savable;
    AscSize(NewIds(s.info, {}), s.idCount);
    AscAt(NewIds(s.info, {}), s.idCount, id);
  }

  lemma AscTriedShort(env: Env, s: State, id: nat)
    requires Inv(env, s) && id in TriedIds(s.info) && id < s.idCount
    ensures |Asc(TriedIds(s.info), id)| < s.triedCount
  {
    hide Weak, StatsOk, Referenced;
    CountsEqual(env, s);
    InvPositioned(env, s);
    PositionedParts(env, s);
    hide Positioned, Savable;
    AscSize(TriedIds(s.info), s.idCount);
    AscAt(TriedIds(s.info), s.idCount, id);
  }

  lemma WrittenNew(s: State, out: seq<Token>)
    requires Written(s.info, NewIds(s.info, {}), s.idCount, out)
    ensures out == EntryTokens(NewEntries(s))
  {
    hide Asc, NewIds;
    AscMembers(NewIds(s.info, {}), s.idCount);
  }

  lemma WrittenTried(s: State, out: seq<Token>)
    requires Written(s.info, TriedIds(s.info), s.idCount, out)
    ensures out == EntryTokens(TriedEntries(s))
  {
    hide Asc, TriedIds;
    AscMembers(TriedIds(s.info), s.idCount);
  }

  /** The second loop of Serialize: writes the entries of the tried table. */
  method WriteTried(m: AddrMan.AddrMan) returns (out: seq<Token>)
    requires m.Shape() && Inv(m.env, m.Model())
    ensures out == EntryTokens(TriedEntries(m.Model()))
  {
    hide Inv, Asc, TriedEntries;
    ghost var trieds := TriedIds(m.info);
    out := [];
    var nIds := 0;
    AscStart(m.info, trieds);
    for id := 0 to m.idCount
      invariant Written(m.info, trieds, id, out) && nIds == |out| == |Asc(trieds, id)|
    {
      AscStep(m.info, trieds, id, out);
      if id in m.info && m.info[id].inTried {
        AscTriedShort(m.env, m.Model(), id);
        assert nIds != m.triedCount;
        out := out + [TEntry(ToStored(m.info[id]))];
        nIds := nIds + 1;
      }
    }
    WrittenTried(m.Model(), out);
  }

  /** One bucket in the last loop of Serialize: its size, then the numbers of its entries. */
  method WriteBucket(m: AddrMan.AddrMan, b: nat, unk: map<nat, int>) returns (out: seq<Token>)
    requires m.Shape() && Inv(m.env, m.Model()) && b < NEW_BUCKET_COUNT && Numbered(m.info, m.idCount, unk)
    requires forall sl :: sl in m.vvNew.table ==> m.vvNew.table[sl] in m.info
    ensures var list := BucketList(m.Model(), b, BUCKET_SIZE); out == [TInt(|list|)] + IntTokens(list)
  {
    hide Inv, Renumber, Asc, NewIds;
    ghost var s := m.Model();
    var size := 0;
    for i := 0 to BUCKET_SIZE
      invariant size == |BucketList(s, b, i)|
    {
      var held := m.vvNew.Get(b, i);
      if held != -1 {
        size := size + 1;
      }
    }
    out := [TInt(size)];
    assert IntTokens(BucketList(s, b, 0)) == [];
    for i := 0 to BUCKET_SIZE
      invariant out == [TInt(size)] + IntTokens(BucketList(s, b, i))
    {
      var held := m.vvNew.Get(b, i);
      if held != -1 {
        HolderNumber(m.env, s, Slot(b, i));
        out := out + [TInt(unk[held])];
      }
    }
  }

  lemma HolderNumber(env: Env, s: State, sl: Slot)
    requires Inv(env, s) && sl in s.newTable
    ensures s.newTable[sl] in s.info && s.newTable[sl] < s.idCount
    ensures Renumber(s, s.newTable[sl]) == |Asc(NewIds(s.info, {}), s.newTable[sl])|
  {
    hide Weak, StatsOk, Referenced, Asc;
    WeakParts(env, s);
    hide RandomOk, TriedOk, CountsOk;
  }

  /** Serialize writes the stream of the saved state. */
  method Serialize(m: AddrMan.AddrMan) returns (out: seq<Token>)
    requires m.Shape() && Inv(m.env, m.Model())
    ensures forall sl :: sl in m.vvNew.table ==> m.vvNew.table[sl] in m.info
    ensures out == Write(Save(m.Model()))
  {
    hide Inv, NewEntries, TriedEntries, BucketList, EntryTokens, Numbered, IntTokens;
    ghost var s := m.Model();
    InvPositioned(m.env, s);
    PositionedParts(m.env, s);
    hide Positioned, Savable, IdsBelow;
    SavedBuckets(s);
    SavedCounts(m.env, s);
    var unk, news := WriteNew(m);
    var trieds := WriteTried(m);
    var buckets: seq<Token> := [];
    for b := 0 to NEW_BUCKET_COUNT
      invariant buckets == BucketTokens(Save(s).buckets, b)
    {
      var list := WriteBucket(m, b, unk);
      buckets := buckets + list;
    }
    out := [TByte(1), TByte(32), TKey(m.key), TInt(m.newCount), TInt(m.triedCount), TInt(FlipBit30(NEW_BUCKET_COUNT))]
           + (news + (trieds + buckets));
  }

  lemma SavedCounts(env: Env, s: State)
    requires Inv(env, s)
    ensures |NewEntries(s)| == s.newCount && |TriedEntries(s)| == s.triedCount
  {
    hide Weak, StatsOk, Referenced;
    CountsEqual(env, s);
    InvPositioned(env, s);
    PositionedParts(env, s);
    hide Positioned, Savable;
    EntriesInOrder(s);
  }

  // ---------- Unserialize ----------

  /** Clear, with the new random key as a parameter. */
  method Clear(m: AddrMan.AddrMan, key: nat)
    requires m.Shape()
    modifies m, m.vvTried, m.vvTried.cells, m.vvNew, m.vvNew.cells
    ensures m.Shape() && m.Model() == AddrPeers.Clear(old(m.Model()), key)
  {
    m.random, m.key := [], key;
    FreeAll(m.vvNew);
    FreeAll(m.vvTried);
    m.idCount, m.triedCount, m.newCount := 0, 0, 0;
  }

  /** The nested loops of Clear. */
  method FreeAll(table: AddrMan.BucketTable)
    requires table.Valid()
    modifies table, table.cells
    ensures table.Valid() && table.table == map[]
  {
    hide Seen;
    ghost var t := table.table;
    ghost var width := table.cells.Length0;
    SeenAll(t, width);
    assert t - Seen(t, 0, 0).Keys == t;
    for b := 0 to table.cells.Length0
      invariant table.Valid() && table.table == t - Seen(t, b, 0).Keys
    {
      for p := 0 to BUCKET_SIZE
        invariant table.Valid() && table.table == t - Seen(t, b, p).Keys
      {
        SeenStep(t, b, p);
        table.Free(b, p);
      }
      SeenRow(t, b, BUCKET_SIZE);
    }
  }

  method LoadNewEntry(m: AddrMan.AddrMan, n: nat, e: Stored, usable: bool)
    requires m.Shape()
    modifies m, m.vvNew, m.vvNew.cells
    ensures m.Shape() && m.Model() == LoadNewOne(m.env, old(m.Model()), n, e, usable)
  {
    hide FromStored;
    ghost var before := m.info;
    var i := FromStored(e);
    m.info := m.info[n := i];
    m.addr := m.addr[i.service.addr := n];
    m.pos := m.pos[n := |m.random|];
    m.random := m.random + [n];
    if !usable {
      var ubucket := m.env.newBucket(m.key, i.service, i.source);
      var upos := m.env.position(m.key, i.service, true, ubucket);
      var held := m.vvNew.Get(ubucket, upos);
      if held == -1 {
        m.vvNew.Set(ubucket, upos, n);
        FromStoredUnreferenced(e);
        PutAgain(before, n, i, i.(refCount := 1));
        m.info := m.info[n := i.(refCount := i.refCount + 1)];
      }
    }
  }

  lemma FromStoredUnreferenced(e: Stored)
    ensures FromStored(e).refCount == 0
  {
  }

  lemma PutAgain(info: map<nat, Info>, n: nat, j: Info, i: Info)
    ensures info[n := j][n := i] == info[n := i]
  {
  }

  method LoadTriedEntry(m: AddrMan.AddrMan, e: Stored)
    requires m.Shape()
    modifies m, m.vvTried, m.vvTried.cells
    ensures m.Shape() && m.Model() == LoadTriedOne(m.env, old(m.Model()), e)
  {
    hide FromStored, TriedSlot;
    var i := FromStored(e).(inTried := true);
    var kbucket := m.env.triedBucket(m.key, i.service);
    var kpos := m.env.position(m.key, i.service, false, kbucket);
    TriedSlotParts(m.env, m.key, i.service);
    var held := m.vvTried.Get(kbucket, kpos);
    if held == -1 {
      m.vvTried.Set(kbucket, kpos, m.idCount);
      AppendTriedEntry(m, i);
    }
  }

  /** The rest of the round for a tried entry whose slot was free. */
  method AppendTriedEntry(m: AddrMan.AddrMan, i: Info)
    requires m.Shape()
    modifies m
    ensures m.Shape()
    ensures m.Model() == var s := old(m.Model()); s.(info := s.info[s.idCount := i], addr := s.addr[i.service.addr := s.idCount],
              pos := s.pos[s.idCount := |s.random|], random := s.random + [s.idCount], idCount := s.idCount + 1, triedCount := s.triedCount + 1)
  {
    m.pos := m.pos[m.idCount := |m.random|];
    m.random := m.random + [m.idCount];
    m.info := m.info[m.idCount := i];
    m.addr := m.addr[i.service.addr := m.idCount];
    m.idCount := m.idCount + 1;
    m.triedCount := m.triedCount + 1;
  }

  lemma TriedSlotParts(env: Env, key: nat, service: Service)
    ensures var b := env.triedBucket(key, service); TriedSlot(env, key, service) == Slot(b, env.position(key, service, false, b))
  {
  }

  method LoadIndexAt(m: AddrMan.AddrMan, b: nat, index: int, size: nat, usable: bool)
    requires m.Shape() && (usable ==> b < NEW_BUCKET_COUNT)
    modifies m, m.vvNew, m.vvNew.cells
    ensures m.Shape() && m.Model() == LoadIndex(m.env, old(m.Model()), b, index, size, usable)
  {
    if 0 <= index < size && index in m.info && usable {
      var i := m.info[index];
      var upos := m.env.position(m.key, i.service, true, b);
      var held := m.vvNew.Get(b, upos);
      if held == -1 && i.refCount < NEW_BUCKETS_PER_ADDRESS {
        m.info := m.info[index := i.(refCount := i.refCount + 1)];
        m.vvNew.Set(b, upos, index);
      }
    }
  }

  /** The last loop of Unserialize. */
  method PruneAll(m: AddrMan.AddrMan)
    requires m.Shape() && RandomOk(m.info.Keys, m.pos, m.random)
    modifies m
    ensures m.Shape() && m.Model() == Prune(old(m.Model()), old(m.idCount))
  {
    hide RandomOk, AddrState.Delete;
    ghost var s := m.Model();
    var size := m.idCount;
    for n := 0 to size
      invariant m.Shape() && m.Model() == Prune(s, n)
    {
      PruneIndexed(s, n);
      if n in m.info && !m.info[n].inTried && m.info[n].refCount == 0 {
        m.Delete(n);
      }
    }
  }

  /** What has been read, in front of what will be. */
  function After<X>(got: seq<X>, o: Option<(seq<X>, seq<Token>)>): Option<(seq<X>, seq<Token>)> {
    match o
    case None => None
    case Some((more, rest)) => Some((got + more, rest))
  }

  lemma ReadEntriesStep(t: seq<Token>, n: nat, got: seq<Stored>)
    requires n > 0
    ensures t == [] || !t[0].TEntry? ==> After(got, ReadEntries(t, n)) == None
    ensures t != [] && t[0].TEntry? ==> After(got, ReadEntries(t, n)) == After(got + [t[0].entry], ReadEntries(t[1..], n - 1))
  {
    if t != [] && t[0].TEntry? {
      match ReadEntries(t[1..], n - 1)
      case None =>
      case Some((more, rest)) => assert got + ([t[0].entry] + more) == got + [t[0].entry] + more;
    }
  }

  lemma ReadIntsStep(t: seq<Token>, n: nat, got: seq<int>)
    requires n > 0
    ensures t == [] || !t[0].TInt? ==> After(got, ReadInts(t, n)) == None
    ensures t != [] && t[0].TInt? ==> After(got, ReadInts(t, n)) == After(got + [t[0].n], ReadInts(t[1..], n - 1))
  {
    if t != [] && t[0].TInt? {
      match ReadInts(t[1..], n - 1)
      case None =>
      case Some((more, rest)) => assert got + ([t[0].n] + more) == got + [t[0].n] + more;
    }
  }

  lemma AfterNothing<X>(o: Option<(seq<X>, seq<Token>)>)
    ensures After([], o) == o
  {
    if o.Some? {
      assert [] + o.value.0 == o.value.0;
    }
  }

  function AfterLists(got: seq<seq<int>>, o: Option<seq<seq<int>>>): Option<seq<seq<int>>> {
    match o
    case None => None
    case Some(more) => Some(got + more)
  }

  lemma ReadBucketsStep(t: seq<Token>, n: nat, got: seq<seq<int>>)
    requires n > 0
    ensures t == [] || !t[0].TInt? ==> AfterLists(got, ReadBuckets(t, n)) == None
    ensures t != [] && t[0].TInt? ==>
      AfterLists(got, ReadBuckets(t, n)) ==
        match ReadInts(t[1..], if t[0].n > 0 then t[0].n else 0)
        case None => None
        case Some((list, rest)) => AfterLists(got + [list], ReadBuckets(rest, n - 1))
  {
    if t != [] && t[0].TInt? {
      match ReadInts(t[1..], if t[0].n > 0 then t[0].n else 0)
      case None =>
      case Some((list, rest)) =>
        match ReadBuckets(rest, n - 1)
        case None =>
        case Some(more) => assert got + ([list] + more) == got + [list] + more;
    }
  }

  /** Loading the first k entries does not depend on those that follow. */
  lemma {:induction false} LoadNewPrefix(env: Env, s: State, got: seq<Stored>, e: Stored, k: nat, usable: bool)
    requires k <= |got|
    ensures LoadNew(env, s, got + [e], k, usable) == LoadNew(env, s, got, k, usable)
  {
    hide LoadNewOne;
    if k > 0 {
      LoadNewPrefix(env, s, got, e, k - 1, usable);
    }
  }

  lemma {:induction false} LoadTriedPrefix(env: Env, s: State, got: seq<Stored>, e: Stored, k: nat)
    requires k <= |got|
    ensures LoadTried(env, s, got + [e], k) == LoadTried(env, s, got, k)
  {
    hide LoadTriedOne;
    if k > 0 {
      LoadTriedPrefix(env, s, got, e, k - 1);
    }
  }

  lemma {:induction false} LoadBucketsPrefix(env: Env, s: State, got: seq<seq<int>>, list: seq<int>, n: nat, size: nat, usable: bool)
    requires n <= |got|
    ensures LoadBuckets(env, s, got + [list], n, size, usable) == LoadBuckets(env, s, got, n, size, usable)
  {
    hide LoadBucket;
    if n > 0 {
      LoadBucketsPrefix(env, s, got, list, n - 1, size, usable);
    }
  }

  /** The first loop of Unserialize; None where the stream breaks off. */
  method LoadNewEntries(m: AddrMan.AddrMan, t: seq<Token>, size: nat, usable: bool) returns (rest: Option<seq<Token>>)
    requires m.Shape() && m.Model() == Empty(m.key)
    modifies m, m.vvNew, m.vvNew.cells
    ensures m.Shape()
    ensures rest.Some? <==> ReadEntries(t, size).Some?
    ensures rest.Some? ==> var (entries, tail) := ReadEntries(t, size).value;
      rest.value == tail && |entries| == size && m.Model() == LoadNew(m.env, Empty(old(m.key)), entries, size, usable)
  {
    hide LoadNewOne, ReadEntries, After;
    ghost var got: seq<Stored>, read := [], ReadEntries(t, size);
    var left := t;
    AfterNothing(read);
    for n := 0 to size
      invariant m.Shape() && |got| == n && m.Model() == LoadNew(m.env, Empty(old(m.key)), got, n, usable)
      invariant After(got, ReadEntries(left, size - n)) == read
    {
      ReadEntriesStep(left, size - n, got);
      if left == [] || !left[0].TEntry? {
        return None;
      }
      var e := left[0].entry;
      LoadNewEntry(m, n, e, usable);
      LoadNewPrefix(m.env, Empty(old(m.key)), got, e, n, usable);
      got, left := got + [e], left[1..];
    }
    ReadNoEntries(left, got);
    return Some(left);
  }

  lemma ReadNoEntries(t: seq<Token>, got: seq<Stored>)
    ensures After(got, ReadEntries(t, 0)) == Some((got, t))
  {
    assert got + [] == got;
  }

  /** The second loop. */
  method LoadTriedEntries(m: AddrMan.AddrMan, t: seq<Token>, count: nat) returns (rest: Option<seq<Token>>)
    requires m.Shape()
    modifies m, m.vvTried, m.vvTried.cells
    ensures m.Shape()
    ensures rest.Some? <==> ReadEntries(t, count).Some?
    ensures rest.Some? ==> var (entries, tail) := ReadEntries(t, count).value;
      rest.value == tail && |entries| == count && m.Model() == LoadTried(m.env, old(m.Model()), entries, count)
  {
    hide LoadTriedOne, ReadEntries, After;
    ghost var s := m.Model();
    ghost var got: seq<Stored>, read := [], ReadEntries(t, count);
    var left := t;
    AfterNothing(read);
    for n := 0 to count
      invariant m.Shape() && |got| == n && m.Model() == LoadTried(m.env, s, got, n)
      invariant After(got, ReadEntries(left, count - n)) == read
    {
      ReadEntriesStep(left, count - n, got);
      if left == [] || !left[0].TEntry? {
        return None;
      }
      var e := left[0].entry;
      LoadTriedEntry(m, e);
      LoadTriedPrefix(m.env, s, got, e, n);
      got, left := got + [e], left[1..];
    }
    ReadNoEntries(left, got);
    return Some(left);
  }

  /** The inner part of the third loop: the indexes of one bucket. */
  method LoadOneBucket(m: AddrMan.AddrMan, b: nat, t: seq<Token>, count: nat, size: nat, usable: bool) returns (rest: Option<seq<Token>>)
    requires m.Shape() && (usable ==> b < NEW_BUCKET_COUNT)
    modifies m, m.vvNew, m.vvNew.cells
    ensures m.Shape()
    ensures rest.Some? <==> ReadInts(t, count).Some?
    ensures rest.Some? ==> var (list, tail) := ReadInts(t, count).value;
      rest.value == tail && m.Model() == LoadBucket(m.env, old(m.Model()), b, list, size, usable)
  {
    hide LoadIndex, ReadInts, After;
    ghost var s := m.Model();
    ghost var got: seq<int>, read := [], ReadInts(t, count);
    var left := t;
    AfterNothing(read);
    for n := 0 to count
      invariant m.Shape() && m.Model() == LoadBucket(m.env, s, b, got, size, usable)
      invariant After(got, ReadInts(left, count - n)) == read
    {
      ReadIntsStep(left, count - n, got);
      if left == [] || !left[0].TInt? {
        return None;
      }
      var index := left[0].n;
      LoadIndexAt(m, b, index, size, usable);
      assert (got + [index])[..|got|] == got;
      got, left := got + [index], left[1..];
    }
    ReadNoInts(left, got);
    return Some(left);
  }

  lemma ReadNoInts(t: seq<Token>, got: seq<int>)
    ensures After(got, ReadInts(t, 0)) == Some((got, t))
  {
    assert got + [] == got;
  }

  /** The third loop: false where the stream breaks off. */
  method LoadPositions(m: AddrMan.AddrMan, t: seq<Token>, count: nat, size: nat, usable: bool) returns (ok: bool)
    requires m.Shape() && (usable ==> count <= NEW_BUCKET_COUNT)
    modifies m, m.vvNew, m.vvNew.cells
    ensures m.Shape()
    ensures ok <==> ReadBuckets(t, count).Some?
    ensures ok ==> var buckets := ReadBuckets(t, count).value;
      |buckets| == count && m.Model() == LoadBuckets(m.env, old(m.Model()), buckets, count, size, usable)
  {
    hide LoadBucket, ReadBuckets, ReadInts, AfterLists;
    ghost var s := m.Model();
    ghost var got: seq<seq<int>>, read := [], ReadBuckets(t, count);
    var left := t;
    AfterNoLists(read);
    for b := 0 to count
      invariant m.Shape() && |got| == b && m.Model() == LoadBuckets(m.env, s, got, b, size, usable)
      invariant AfterLists(got, ReadBuckets(left, count - b)) == read
    {
      ReadBucketsStep(left, count - b, got);
      if left == [] || !left[0].TInt? {
        return false;
      }
      var n := if left[0].n > 0 then left[0].n else 0;
      ghost var list := ReadInts(left[1..], n);
      var rest := LoadOneBucket(m, b, left[1..], n, size, usable);
      if rest.None? {
        return false;
      }
      LoadBucketsPrefix(m.env, s, got, list.value.0, b, size, usable);
      got, left := got + [list.value.0], rest.value;
    }
    ReadNoBuckets(left, got);
    return true;
  }

  lemma AfterNoLists(o: Option<seq<seq<int>>>)
    ensures o.Some? ==> AfterLists([], o) == o
    ensures o.None? ==> AfterLists([], o) == None
  {
    if o.Some? {
      assert [] + o.value == o.value;
    }
  }

  lemma ReadNoBuckets(t: seq<Token>, got: seq<seq<int>>)
    ensures AfterLists(got, ReadBuckets(t, 0)) == Some(got)
  {
    assert got + [] == got;
  }

  /** Unserialize into a freshly constructed manager, reading item by item: false where the source
      throws. */
  method Unserialize(m: AddrMan.AddrMan, t: seq<Token>, key: nat) returns (ok: bool)
    requires m.Shape() && m.Model() == Empty(m.key)
    modifies m, m.vvTried, m.vvTried.cells, m.vvNew, m.vvNew.cells
    ensures m.Shape()
    ensures ok <==> Parse(t).Some?
    ensures ok ==> m.Model() == Load(m.env, Parse(t).value)
  {
    hide LoadNew, LoadTried, LoadBuckets, RandomOk, Prune, ReadEntries, ReadBuckets;
    Clear(m, key);
    if |t| < 6 || !t[0].TByte? || !t[1].TByte? || t[1].byte != 32 || !t[2].TKey? || !t[3].TInt? || !t[4].TInt? || !t[5].TInt? {
      return false;
    }
    var version, size, tried, word := t[0].byte, t[3].n, t[4].n, t[5].n;
    if size < 0 || tried < 0 || word < 0 {
      return false;
    }
    m.key := t[2].key;
    var buckets := BucketCount(version, word);
    var usable := version == 1 && buckets == NEW_BUCKET_COUNT;
    var rest := LoadNewEntries(m, t[6..], size, usable);
    if rest.None? {
      return false;
    }
    LoadNewIndexed(m.env, t[2].key, ReadEntries(t[6..], size).value.0, size, usable);
    m.idCount, m.newCount := size, size;
    ghost var s1 := m.Model();
    ghost var afterNew := rest.value;
    rest := LoadTriedEntries(m, rest.value, tried);
    if rest.None? {
      return false;
    }
    LoadTriedIndexed(m.env, s1, ReadEntries(afterNew, tried).value.0, tried);
    ghost var s2 := m.Model();
    ok := LoadPositions(m, rest.value, buckets, size, usable);
    if !ok {
      return;
    }
    LoadBucketsIndexed(m.env, s2, ReadBuckets(rest.value, buckets).value, buckets, size, usable);
    PruneAll(m);
  }

  lemma {:induction false} ReadBucketsCount(t: seq<Token>, n: nat)
    ensures ReadBuckets(t, n).Some? ==> |ReadBuckets(t, n).value| == n
    decreases n
  {
    if n > 0 && t != [] && t[0].TInt? {
      match ReadInts(t[1..], if t[0].n > 0 then t[0].n else 0)
      case None =>
      case Some((list, rest)) => ReadBucketsCount(rest, n - 1);
    }
  }

  lemma ParsedBuckets(t: seq<Token>)
    requires Parse(t).Some?
    ensures Parsable(Parse(t).value)
  {
    hide ReadEntries, ReadBuckets;
    match ReadEntries(t[6..], t[3].n)
    case Some((news, rest)) =>
      match ReadEntries(rest, t[4].n)
      case Some((trieds, rest)) =>
        ReadBucketsCount(rest, BucketCount(t[0].byte, t[5].n));
  }

  /** A usable file has as many buckets as the table. */
  ghost predicate Parsable(p: Peers) {
    Usable(p) ==> |p.buckets| <= NEW_BUCKET_COUNT
  }
}
