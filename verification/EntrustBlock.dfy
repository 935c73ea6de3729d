/** What one block does to every figure of the ledger, told from the previous height and the block alone:
    AddMetaBlock in src/entrustment.cpp. */
module EntrustBlock {
  import opened Basics
  import opened EntrustBonus
  import opened Entrustment
  import opened EntrustRuns

  // ---------- A user's part of the bonus ----------

  /** The rounded-down share of who entrusted something; what rounding leaves over goes to the first of them. */
  ghost function Part(a: Agent, bonus: int, u: User): int {
    if a.total == 0 || u !in Entrusted(a) then 0
    else Share(a, bonus, u) + if u == First(Entrusted(a)) then bonus - Sum(v => Share(a, bonus, v), Entrusted(a)) else 0
  }

  lemma PaidIsPart(a: Agent, bonus: int, u: User)
    requires Balanced(a) && bonus >= 0
    ensures BonusMap(a, bonus).Some? && Paid(BonusMap(a, bonus).value, u) == Part(a, bonus, u)
  {
    hide Balanced, Share;
    BonusExact(a, bonus);
    if a.total > 0 && u in Entrusted(a) {
      var us, m := Entrusted(a), BonusMap(a, bonus).value;
      var share, paid := (v: User) => Share(a, bonus, v), (v: User) => Paid(m, v);
      SumSame(v => Share(a, bonus, v), share, us);
      SumSame(v => Paid(m, v), paid, us);
      var first := First(us);
      SumSplit(share, us, first);
      SumSplit(paid, us, first);
      SumSame(share, paid, us - {first});
    }
  }

  /** The parts add up to the bonus whenever something is entrusted. */
  lemma PartsAddUp(a: Agent, bonus: int)
    requires Balanced(a) && a.total > 0 && bonus >= 0
    ensures Sum(u => Part(a, bonus, u), a.users.Keys) == bonus
  {
    hide Balanced, Share, BonusMap, Part;
    BonusExact(a, bonus);
    var m := BonusMap(a, bonus).value;
    var paid := (u: User) => Paid(m, u);
    forall u ensures paid(u) == Part(a, bonus, u) {
      PaidIsPart(a, bonus, u);
    }
    SumSame(u => Paid(m, u), paid, m.Keys);
    SumZeros(paid, a.users.Keys, m.Keys);
    SumSame(paid, u => Part(a, bonus, u), a.users.Keys);
  }

  /** Each part is the exact proportion but for less than one unit, the first one's but for the number of users. */
  lemma PartBounds(a: Agent, bonus: int, u: User)
    requires Balanced(a) && a.total > 0 && bonus >= 0 && u in a.users
    ensures var part, exact := Part(a, bonus, u), bonus * a.users[u].entrust;
      && (a.users[u].entrust == 0 ==> part == 0)
      && (a.users[u].entrust > 0 && u != First(Entrusted(a)) ==> part * a.total <= exact < (part + 1) * a.total)
      && (a.users[u].entrust > 0 && u == First(Entrusted(a)) ==> exact < (part + 1) * a.total && (part - |a.users|) * a.total < exact)
  {
    BalancedWeights(a);
    BonusExact(a, bonus);
    PaidIsPart(a, bonus, u);
    if a.users[u].entrust > 0 {
      Quotient(bonus * a.users[u].entrust, a.total);
      if u == First(Entrusted(a)) {
        FirstPart(a, bonus, u);
      }
    }
  }

  lemma FirstPart(a: Agent, bonus: int, u: User)
    requires Balanced(a) && a.total > 0 && bonus >= 0 && u in Entrusted(a) && u == First(Entrusted(a))
    ensures var part, exact := Part(a, bonus, u), bonus * a.users[u].entrust;
      exact < (part + 1) * a.total && (part - |a.users|) * a.total < exact
  {
    hide Balanced, BonusMap, Part, Sum;
    BalancedWeights(a);
    BonusExact(a, bonus);
    PaidIsPart(a, bonus, u);
    var part, share := Part(a, bonus, u), Share(a, bonus, u);
    assert share <= part < share + |Entrusted(a)|;
    assert Entrusted(a) <= a.users.Keys;
    SubsetSize(Entrusted(a), a.users.Keys);
    assert |a.users.Keys| == |a.users|;
    Quotient(bonus * a.users[u].entrust, a.total);
    TimesMonotone(share + 1, part + 1, a.total);
    TimesMonotone(part - |a.users|, share - 1, a.total);
    TimesPlus(share, -1, a.total);
  }

  lemma {:induction false} SubsetSize(a: set<User>, b: set<User>)
    requires a <= b
    ensures |a| <= |b|
  {
    assert b == a + (b - a);
  }

  // ---------- What the lists do to one user ----------

  /** What the transfers add to a user's holding. */
  function NetMoved(ts: seq<Transfer>, id: AgentId, u: User): int
    decreases |ts|
  {
    if ts == [] then 0
    else
      var n := |ts| - 1;
      var t := ts[n];
      NetMoved(ts[..n], id, u) + if t.agent != id || t.user != u then 0 else if t.deprive then -t.amount else t.amount
  }

  /** Does some transfer entrust to a user who then holds nothing? */
  ghost predicate Joins(ts: seq<Transfer>, id: AgentId, u: User, held: int) {
    exists k :: 0 <= k < |ts| && ts[k].agent == id && ts[k].user == u && !ts[k].deprive && held + NetMoved(ts[..k], id, u) == 0
  }

  lemma JoinsStep(ts: seq<Transfer>, id: AgentId, u: User, held: int)
    requires ts != []
    ensures var n := |ts| - 1;
      Joins(ts, id, u, held) <==>
        Joins(ts[..n], id, u, held) || (ts[n].agent == id && ts[n].user == u && !ts[n].deprive && held + NetMoved(ts[..n], id, u) == 0)
  {
    hide NetMoved;
    var n := |ts| - 1;
    forall k | 0 <= k < n ensures ts[..n][k] == ts[k] && ts[..n][..k] == ts[..k] {
    }
    if Joins(ts[..n], id, u, held) {
      var k :| 0 <= k < n && ts[..n][k].agent == id && ts[..n][k].user == u && !ts[..n][k].deprive
        && held + NetMoved(ts[..n][..k], id, u) == 0;
      assert ts[k].agent == id && held + NetMoved(ts[..k], id, u) == 0;
    }
    if Joins(ts, id, u, held) {
      var k :| 0 <= k < |ts| && ts[k].agent == id && ts[k].user == u && !ts[k].deprive && held + NetMoved(ts[..k], id, u) == 0;
      if k < n {
        assert ts[..n][k].agent == id && held + NetMoved(ts[..n][..k], id, u) == 0;
      }
    }
  }

  function Transferred(s: Stat, net: int, joins: bool, h: int): Stat {
    s.(entrust := s.entrust + net, join := if joins then h else s.join)
  }

  lemma MoveStat(m: AgentMap, t: Transfer, h: int, id: AgentId, u: User)
    requires id in m
    ensures var s := StatOf(m[id], u);
      && id in Move(m, t, h)
      && StatOf(Move(m, t, h)[id], u) == if t.agent != id || t.user != u then s
         else if t.deprive then s.(entrust := s.entrust - t.amount)
         else s.(entrust := s.entrust + t.amount, join := if s.entrust == 0 then h else s.join)
  {
  }

  lemma {:induction false} MoveAllStat(m: AgentMap, ts: seq<Transfer>, h: int, id: AgentId, u: User)
    ensures id in MoveAll(m, ts, h) <==> id in m
    ensures id in m ==>
      var s := StatOf(m[id], u);
      StatOf(MoveAll(m, ts, h)[id], u) == Transferred(s, NetMoved(ts, id, u), Joins(ts, id, u, s.entrust), h)
    decreases |ts|
  {
    hide Joins, StatOf, Move;
    if ts == [] {
      NoTransfers(id, u, if id in m then StatOf(m[id], u).entrust else 0);
    } else {
      var n := |ts| - 1;
      MoveAllStat(m, ts[..n], h, id, u);
      MoveKeys(MoveAll(m, ts[..n], h), ts[n], h);
      if id in m {
        MoveStat(MoveAll(m, ts[..n], h), ts[n], h, id, u);
        JoinsStep(ts, id, u, StatOf(m[id], u).entrust);
      }
    }
  }

  lemma NoTransfers(id: AgentId, u: User, held: int)
    ensures NetMoved([], id, u) == 0 && !Joins([], id, u, held)
  {
  }

  lemma MoveKeys(m: AgentMap, t: Transfer, h: int)
    ensures Move(m, t, h).Keys == m.Keys
  {
  }

  lemma {:induction false} CreateAllIs(m: AgentMap, ids: seq<AgentId>, id: AgentId)
    ensures id in CreateAll(m, ids) <==> id in m || id in ids
    ensures id in CreateAll(m, ids) ==> CreateAll(m, ids)[id] == if id in m then m[id] else Agent(0, map[])
    decreases |ids|
  {
    if ids != [] {
      var n := |ids| - 1;
      CreateAllIs(m, ids[..n], id);
      assert ids == ids[..n] + [ids[n]];
    }
  }

  lemma {:induction false} ResignAllIs(m: AgentMap, ids: seq<AgentId>, id: AgentId)
    ensures id in ResignAll(m, ids) <==> id in m && id !in ids
    ensures id in ResignAll(m, ids) ==> ResignAll(m, ids)[id] == m[id]
    decreases |ids|
  {
    if ids != [] {
      var n := |ids| - 1;
      ResignAllIs(m, ids[..n], id);
      assert ids == ids[..n] + [ids[n]];
    }
  }

  // ---------- A block ----------

  /** A user's figures at a height, zero where there are none. */
  function Figures(l: Ledger, h: int, id: AgentId, u: User): Stat {
    if StatAt(l, h, id, u).Some? then StatAt(l, h, id, u).value else Stat(0, 0, 0, 0)
  }

  /** Is the agent there after the block? */
  predicate Stays(l: Ledger, h: int, b: Block, id: AgentId) {
    (AgentAt(l, h - 1, id).Some? || id in b.creates) && id !in b.resigns
  }

  /** A user's figures after the block: the part of the bonus, the rewards and the transfers added. With a
      single height kept the previous one is gone when the bonus is divided, and nothing is dealt. */
  ghost function FiguresAfter(r: Rules, l: Ledger, h: int, b: Block, id: AgentId, u: User): Stat {
    var s, mine := Figures(l, h - 1, id, u), b.staker == Some(id) && AgentAt(l, h - 1, id).Some?;
    Stat(if Joins(b.transfers, id, u, s.entrust) then h else s.join,
         s.entrust + NetMoved(b.transfers, id, u),
         s.deal + if mine && r.keep >= 2 then Part(AgentAt(l, h - 1, id).value, r.bonus(h), u) else 0,
         s.dividend + if mine then Received(b.rewards, u) else 0)
  }

  ghost predicate StakerBalanced(l: Ledger, h: int, b: Block) {
    b.staker.Some? && AgentAt(l, h - 1, b.staker.value).Some? ==> Balanced(AgentAt(l, h - 1, b.staker.value).value)
  }

  /** A block is taken in exactly when its height is new and its staking agent was there before. */
  lemma BlockDone(r: Rules, l: Ledger, h: nat, b: Block)
    requires RulesOk(r) && Positive(r) && StakerBalanced(l, h, b)
    ensures AddBlock(r, l, h, b).1 == Done <==> h !in l && (b.staker.Some? ==> AgentAt(l, h - 1, b.staker.value).Some?)
    ensures AddBlock(r, l, h, b).1 != Threw
  {
    hide Balanced, BonusMap, Settle;
    if h !in l {
      InitHeightShape(r, l, h);
      if b.staker.Some? && b.staker.value in Previous(l, h) {
        DealtBefore(r, l, h, b.staker.value);
      }
    }
  }

  /** The bonus that is divided at height h, seen from the ledger before the height is initialized. */
  lemma DealtBefore(r: Rules, l: Ledger, h: nat, id: AgentId)
    requires RulesOk(r) && Positive(r) && h !in l && id in Previous(l, h) && Balanced(Previous(l, h)[id])
    ensures AgentAt(l, h - 1, id) == Some(Previous(l, h)[id])
    ensures DealMap(r, InitHeight(r, l, h), h, id).Some?
    ensures forall u ::
      Paid(DealMap(r, InitHeight(r, l, h), h, id).value, u) == if r.keep >= 2 then Part(Previous(l, h)[id], r.bonus(h), u) else 0
  {
    hide Balanced, BonusMap, Part;
    var a, l1 := Previous(l, h)[id], InitHeight(r, l, h);
    if r.keep >= 2 {
      assert h - 1 in l1 && AgentAt(l1, h - 1, id) == Some(a);
      PaidIsPart(a, r.bonus(h), User(0));
      forall u ensures Paid(BonusMap(a, r.bonus(h)).value, u) == Part(a, r.bonus(h), u) {
        PaidIsPart(a, r.bonus(h), u);
      }
    } else {
      assert h - 1 !in l1;
    }
  }

  /** The staking agent's users once the bonus is dealt and the rewards are recorded. */
  lemma RewardedStat(r: Rules, l: Ledger, h: nat, b: Block, id: AgentId, u: User)
    requires RulesOk(r) && Positive(r) && StakerBalanced(l, h, b) && AddBlock(r, l, h, b).1 == Done
    ensures h !in l && h in InitHeight(r, l, h) && Rewarded(r, InitHeight(r, l, h), h, b).Ready?
    ensures var m := Rewarded(r, InitHeight(r, l, h), h, b).agents;
      && (id in m <==> AgentAt(l, h - 1, id).Some?)
      && (id in m ==>
            var s, mine := Figures(l, h - 1, id, u), b.staker == Some(id);
            StatOf(m[id], u) == s.(deal := s.deal + if mine && r.keep >= 2 then Part(AgentAt(l, h - 1, id).value, r.bonus(h), u) else 0,
                                   dividend := s.dividend + if mine then Received(b.rewards, u) else 0))
  {
    hide Balanced, BonusMap, Settle, Part, PayAll, Received, DealMap;
    InitHeightShape(r, l, h);
    BlockDone(r, l, h, b);
    if b.staker == Some(id) {
      DealtBefore(r, l, h, id);
      var a, m := Previous(l, h)[id], DealMap(r, InitHeight(r, l, h), h, id).value;
      PayAllStat(Deals(a, m), b.rewards, u);
      DealsStat(a, m, u);
    }
  }

  lemma DealsStat(a: Agent, m: map<User, int>, u: User)
    ensures StatOf(Deals(a, m), u) == StatOf(a, u).(deal := StatOf(a, u).deal + Paid(m, u))
  {
  }

  lemma ClearStat(m: AgentMap, least: int, id: AgentId, u: User)
    requires least > 0
    ensures id in ClearInactive(m, least) <==> id in m
    ensures id in m ==>
      var s := StatOf(m[id], u);
      UserIn(ClearInactive(m, least), id, u) == if s.entrust > 0 || s.deal - s.dividend >= least then Some(s) else None
  {
  }

  /** Every agent and every user after a block: who is there, and with which figures. Users who hold
      nothing and have less than the least reward coming are gone. */
  lemma BlockStat(r: Rules, l: Ledger, h: nat, b: Block, id: AgentId, u: User)
    requires RulesOk(r) && Positive(r) && StakerBalanced(l, h, b) && AddBlock(r, l, h, b).1 == Done
    ensures var l', s := AddBlock(r, l, h, b).0, FiguresAfter(r, l, h, b, id, u);
      && (AgentAt(l', h, id).Some? <==> Stays(l, h, b, id))
      && StatAt(l', h, id, u)
         == if Stays(l, h, b, id) && (s.entrust > 0 || s.deal - s.dividend >= r.minReward(h)) then Some(s) else None
  {
    hide Balanced, BonusMap, Part, PayAll, Received, Rewarded, MoveAll, ResignAll, CreateAll, ClearInactive, Joins, NetMoved, InitHeight;
    RewardedStat(r, l, h, b, id, u);
    var m := Rewarded(r, InitHeight(r, l, h), h, b).agents;
    CreateAllIs(m, b.creates, id);
    var created := CreateAll(m, b.creates);
    ResignAllIs(created, b.resigns, id);
    var left := ResignAll(created, b.resigns);
    MoveAllStat(left, b.transfers, h, id, u);
    ClearStat(MoveAll(left, b.transfers, h), r.minReward(h), id, u);
  }

  /** The other heights stay as they are, but for those that are too old to keep. */
  lemma BlockKeepsRest(r: Rules, l: Ledger, h: nat, b: Block, g: nat)
    requires RulesOk(r) && h !in l && g != h
    ensures var l' := AddBlock(r, l, h, b).0;
      (g in l' <==> g in l && g >= h - r.keep + 1) && (g in l' ==> l'[g] == l[g])
  {
    hide Rewarded, Settle;
  }

  /** A block deals its bonus: every user of the staking agent gets their part, the parts add up to the
      bonus, and no other agent's users are dealt anything. */
  lemma BlockDeals(r: Rules, l: Ledger, h: nat, b: Block, id: AgentId)
    requires RulesOk(r) && Positive(r) && StakerBalanced(l, h, b) && AddBlock(r, l, h, b).1 == Done && r.keep >= 2
    ensures var l', mine := AddBlock(r, l, h, b).0, b.staker == Some(id);
      && (mine ==> AgentAt(l, h - 1, id).Some?)
      && (forall u :: StatAt(l', h, id, u).Some? ==>
            StatAt(l', h, id, u).value.deal - Figures(l, h - 1, id, u).deal
            == if mine then Part(AgentAt(l, h - 1, id).value, r.bonus(h), u) else 0)
      && (mine && AgentAt(l, h - 1, id).value.total > 0 ==>
            var a := AgentAt(l, h - 1, id).value; Sum(u => Part(a, r.bonus(h), u), a.users.Keys) == r.bonus(h))
  {
    hide Balanced, Part, Joins, NetMoved, Received, AddBlock, Sum;
    BlockDone(r, l, h, b);
    forall u | StatAt(AddBlock(r, l, h, b).0, h, id, u).Some?
      ensures StatAt(AddBlock(r, l, h, b).0, h, id, u).value.deal == FiguresAfter(r, l, h, b, id, u).deal
    {
      BlockStat(r, l, h, b, id, u);
    }
    if b.staker == Some(id) && AgentAt(l, h - 1, id).value.total > 0 {
      PartsAddUp(AgentAt(l, h - 1, id).value, r.bonus(h));
    }
  }

  // ---------- Rewards mature ----------

  /** When the test looks at rewards, it lets each pass exactly when the user was there 60 heights before and
      at the previous height, joined no later than that, has at least the least reward coming, and is then
      paid no more in all than had been dealt 60 heights before. */
  lemma AcceptedMatured(r: Rules, l: Ledger, h: nat, onTip: bool, id: AgentId, rewards: seq<Reward>)
    requires Examined(r, l, h, onTip)
    ensures Accepted(r, l, h, onTip, id, rewards) <==>
      AgentAt(l, h - 1, id).Some? && forall p :: p in rewards ==>
        && h - 60 >= r.posStart && StatAt(l, h - 60, id, p.user).Some? && StatAt(l, h - 1, id, p.user).Some?
        && var base, prev := StatAt(l, h - 60, id, p.user).value, StatAt(l, h - 1, id, p.user).value;
        && prev.join <= h - 60 && base.deal - prev.dividend >= r.minReward(h) && prev.dividend + p.amount <= base.deal
  {
    forall p: Reward
      ensures (Expected(r, l, h, id, p.user).Some? && p.amount <= Expected(r, l, h, id, p.user).value) <==>
        && h - 60 >= r.posStart && StatAt(l, h - 60, id, p.user).Some? && StatAt(l, h - 1, id, p.user).Some?
        && var base, prev := StatAt(l, h - 60, id, p.user).value, StatAt(l, h - 1, id, p.user).value;
        && prev.join <= h - 60 && base.deal - prev.dividend >= r.minReward(h) && prev.dividend + p.amount <= base.deal
    {
    }
  }

  /** So after a block that is looked at and pays nobody twice, nobody it paid has been paid more than what
      had been dealt to them 60 heights before. */
  lemma PaidIsMatured(r: Rules, l: Ledger, h: nat, onTip: bool, b: Block, u: User)
    requires RulesOk(r) && Positive(r) && StakerBalanced(l, h, b) && AddBlock(r, l, h, b).1 == Done
    requires b.staker.Some? && Examined(r, l, h, onTip) && Accepted(r, l, h, onTip, b.staker.value, b.rewards) && PaidOnce(b.rewards)
    requires exists p :: p in b.rewards && p.user == u
    ensures var id, l' := b.staker.value, AddBlock(r, l, h, b).0;
      && StatAt(l, h - 60, id, u).Some?
      && (StatAt(l', h, id, u).Some? ==> StatAt(l', h, id, u).value.dividend <= StatAt(l, h - 60, id, u).value.deal)
  {
    hide Balanced, Part, Joins, NetMoved, AddBlock, Examined, Expected;
    var id := b.staker.value;
    AcceptedMatured(r, l, h, onTip, id, b.rewards);
    ReceivedOnce(b.rewards, u);
    BlockDone(r, l, h, b);
    BlockStat(r, l, h, b, id, u);
  }
}
