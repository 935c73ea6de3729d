/** What every block keeps: an agent's total is what its users hold, and nobody is paid more than was dealt to them. */
module EntrustRuns {
  import opened Basics
  import opened EntrustBonus
  import opened Entrustment

  // ---------- Totals ----------

  ghost predicate AllBalanced(m: AgentMap) {
    forall id :: id in m ==> Balanced(m[id])
  }

  function Entry(a: Agent): User -> int {
    u => StatOf(a, u).entrust
  }

  lemma BalancedSum(a: Agent)
    ensures Balanced(a) <==> (forall u :: u in a.users ==> a.users[u].entrust >= 0) && a.total == Sum(Entry(a), a.users.Keys)
  {
    SumSame(Entry(a), u => StatOf(a, u).entrust, a.users.Keys);
  }

  /** Rewriting one user's figures moves the total by the change of what that user holds. */
  lemma BalancedSet(a: Agent, u: User, s: Stat)
    requires Balanced(a) && s.entrust >= 0
    ensures Balanced(SetStat(a, u, s).(total := a.total + s.entrust - StatOf(a, u).entrust))
  {
    var b := SetStat(a, u, s).(total := a.total + s.entrust - StatOf(a, u).entrust);
    BalancedSum(a);
    BalancedSum(b);
    var keys := a.users.Keys + {u};
    assert b.users.Keys == keys;
    SumZeros(Entry(a), keys, a.users.Keys);
    SumSplit(Entry(a), keys, u);
    SumSplit(Entry(b), keys, u);
    SumSame(Entry(a), Entry(b), keys - {u});
  }

  /** Figures that change nobody's holdings, in entries for at least the same users. */
  lemma BalancedSameHoldings(a: Agent, b: Agent)
    requires Balanced(a) && b.total == a.total
    requires forall u :: StatOf(b, u).entrust == StatOf(a, u).entrust
    ensures Balanced(b)
  {
    BalancedSum(a);
    BalancedSum(b);
    var keys := a.users.Keys + b.users.Keys;
    SumZeros(Entry(a), keys, a.users.Keys);
    SumZeros(Entry(b), keys, b.users.Keys);
    SumSame(Entry(a), Entry(b), keys);
    forall u | u in b.users ensures b.users[u].entrust >= 0 {
      assert StatOf(b, u).entrust == StatOf(a, u).entrust;
    }
  }

  lemma ClearAgentBalanced(a: Agent, least: int)
    requires Balanced(a)
    ensures Balanced(ClearAgent(a, least))
  {
    var b := ClearAgent(a, least);
    forall u ensures StatOf(b, u).entrust == StatOf(a, u).entrust {
      if u in a.users {
        assert a.users[u].entrust >= 0;
      }
    }
    BalancedSameHoldings(a, b);
  }

  lemma DealsBalanced(a: Agent, m: map<User, int>)
    requires Balanced(a)
    ensures Balanced(Deals(a, m))
  {
    BalancedSameHoldings(a, Deals(a, m));
  }

  lemma {:induction false} PayAllBalanced(a: Agent, rewards: seq<Reward>)
    requires Balanced(a)
    ensures Balanced(PayAll(a, rewards))
    decreases |rewards|
  {
    if rewards != [] {
      PayAllBalanced(a, rewards[..|rewards| - 1]);
      BalancedSameHoldings(PayAll(a, rewards[..|rewards| - 1]), PayAll(a, rewards));
    }
  }

  /** Withdrawals bounded by holdings at the time they are made, and no negative amounts. */
  predicate Covered(m: AgentMap, ts: seq<Transfer>, h: int)
    decreases |ts|
  {
    ts == [] ||
      var n := |ts| - 1;
      var before, t := MoveAll(m, ts[..n], h), ts[n];
      && Covered(m, ts[..n], h) && t.amount >= 0
      && (t.deprive && t.agent in before ==> t.amount <= StatOf(before[t.agent], t.user).entrust)
  }

  lemma HoldsNothingNegative(a: Agent, u: User)
    requires Balanced(a)
    ensures StatOf(a, u).entrust >= 0
  {
  }

  lemma MoveBalanced(m: AgentMap, t: Transfer, h: int)
    requires AllBalanced(m) && t.amount >= 0
    requires t.deprive && t.agent in m ==> t.amount <= StatOf(m[t.agent], t.user).entrust
    ensures AllBalanced(Move(m, t, h))
  {
    hide Balanced;
    if t.agent in m {
      var a, u := m[t.agent], t.user;
      var s := StatOf(a, u);
      HoldsNothingNegative(a, u);
      if t.deprive {
        BalancedSet(a, u, s.(entrust := s.entrust - t.amount));
        assert Deprive(a, u, t.amount) == SetStat(a, u, s.(entrust := s.entrust - t.amount)).(total := a.total - t.amount);
      } else {
        BalancedSet(a, u, s.(join := if s.entrust == 0 then h else s.join, entrust := s.entrust + t.amount));
      }
    }
  }

  lemma {:induction false} MoveAllBalanced(m: AgentMap, ts: seq<Transfer>, h: int)
    requires AllBalanced(m) && Covered(m, ts, h)
    ensures AllBalanced(MoveAll(m, ts, h))
    decreases |ts|
  {
    if ts != [] {
      MoveAllBalanced(m, ts[..|ts| - 1], h);
      MoveBalanced(MoveAll(m, ts[..|ts| - 1], h), ts[|ts| - 1], h);
    }
  }

  lemma {:induction false} CreateAllBalanced(m: AgentMap, ids: seq<AgentId>)
    requires AllBalanced(m)
    ensures AllBalanced(CreateAll(m, ids))
    decreases |ids|
  {
    if ids != [] {
      CreateAllBalanced(m, ids[..|ids| - 1]);
      var none := Agent(0, map[]);
      BalancedSum(none);
    }
  }

  lemma {:induction false} ResignAllBalanced(m: AgentMap, ids: seq<AgentId>)
    requires AllBalanced(m)
    ensures AllBalanced(ResignAll(m, ids))
    decreases |ids|
  {
    if ids != [] {
      ResignAllBalanced(m, ids[..|ids| - 1]);
    }
  }

  lemma SettleBalanced(m: AgentMap, b: Block, h: int, least: int)
    requires AllBalanced(m) && Covered(ResignAll(CreateAll(m, b.creates), b.resigns), b.transfers, h)
    ensures AllBalanced(Settle(m, b, h, least))
  {
    hide Balanced, ClearAgent, Covered;
    CreateAllBalanced(m, b.creates);
    ResignAllBalanced(CreateAll(m, b.creates), b.resigns);
    var before := ResignAll(CreateAll(m, b.creates), b.resigns);
    MoveAllBalanced(before, b.transfers, h);
    var moved := MoveAll(before, b.transfers, h);
    forall id | id in moved ensures Balanced(ClearAgent(moved[id], least)) {
      ClearAgentBalanced(moved[id], least);
    }
  }

  // ---------- Figures between two heights ----------

  /** What becomes of one user's entry in the block at height h, from the entry at the height before
      (None for a user not there): carried on with at least as much dealt, or joined now, or an
      entry a withdrawal of nothing left. Never more paid than dealt. */
  predicate Follows(prev: Option<Stat>, s: Stat, h: int) {
    && s.dividend <= s.deal
    && (s.join == h
        || (prev.Some? && s.join == prev.value.join && prev.value.deal <= s.deal)
        || (s.entrust == 0 && s.deal == 0 && s.dividend == 0))
  }

  function UserIn(m: AgentMap, id: AgentId, u: User): Option<Stat> {
    if id in m && u in m[id].users then Some(m[id].users[u]) else None
  }

  ghost predicate AllFollow(start: AgentMap, m: AgentMap, h: int) {
    forall id, u :: id in m && u in m[id].users ==> Follows(UserIn(start, id, u), m[id].users[u], h)
  }

  lemma {:induction false} CreateAllFollow(start: AgentMap, m: AgentMap, ids: seq<AgentId>, h: int)
    requires AllFollow(start, m, h)
    ensures AllFollow(start, CreateAll(m, ids), h)
    decreases |ids|
  {
    if ids != [] {
      CreateAllFollow(start, m, ids[..|ids| - 1], h);
    }
  }

  lemma {:induction false} ResignAllFollow(start: AgentMap, m: AgentMap, ids: seq<AgentId>, h: int)
    requires AllFollow(start, m, h)
    ensures AllFollow(start, ResignAll(m, ids), h)
    decreases |ids|
  {
    if ids != [] {
      ResignAllFollow(start, m, ids[..|ids| - 1], h);
    }
  }

  lemma MoveFollow(start: AgentMap, m: AgentMap, t: Transfer, h: int)
    requires AllFollow(start, m, h) && t.amount >= 0
    requires t.deprive && t.agent in m ==> t.amount <= StatOf(m[t.agent], t.user).entrust
    ensures AllFollow(start, Move(m, t, h), h)
  {
    if t.agent in m {
      var m' := Move(m, t, h);
      forall id, u | id in m' && u in m'[id].users ensures Follows(UserIn(start, id, u), m'[id].users[u], h) {
        if id in m && u in m[id].users {
          assert Follows(UserIn(start, id, u), m[id].users[u], h);
        }
      }
    }
  }

  lemma {:induction false} MoveAllFollow(start: AgentMap, m: AgentMap, ts: seq<Transfer>, h: int)
    requires AllFollow(start, m, h) && Covered(m, ts, h)
    ensures AllFollow(start, MoveAll(m, ts, h), h)
    decreases |ts|
  {
    hide AllFollow, Move;
    if ts != [] {
      MoveAllFollow(start, m, ts[..|ts| - 1], h);
      MoveFollow(start, MoveAll(m, ts[..|ts| - 1], h), ts[|ts| - 1], h);
    }
  }

  /** After the inactive users are gone every entry is carried on or joined now. */
  lemma ClearFollow(start: AgentMap, m: AgentMap, h: int, least: int)
    requires AllFollow(start, m, h) && least > 0
    ensures forall id, u :: UserIn(ClearInactive(m, least), id, u).Some? ==>
      var s, prev := UserIn(ClearInactive(m, least), id, u).value, UserIn(start, id, u);
      && s.dividend <= s.deal
      && (s.join == h || (prev.Some? && s.join == prev.value.join && prev.value.deal <= s.deal))
  {
  }

  // ---------- Rewards ----------

  function Received(rewards: seq<Reward>, u: User): int
    decreases |rewards|
  {
    if rewards == [] then 0
    else
      var p := rewards[|rewards| - 1];
      Received(rewards[..|rewards| - 1], u) + if p.user == u then p.amount else 0
  }

  lemma {:induction false} PayAllStat(a: Agent, rewards: seq<Reward>, u: User)
    ensures StatOf(PayAll(a, rewards), u) == StatOf(a, u).(dividend := StatOf(a, u).dividend + Received(rewards, u))
    ensures u in PayAll(a, rewards).users <==> u in a.users || exists p :: p in rewards && p.user == u
    decreases |rewards|
  {
    if rewards != [] {
      var n := |rewards| - 1;
      PayAllStat(a, rewards[..n], u);
      assert rewards == rewards[..n] + [rewards[n]];
      assert forall p :: p in rewards <==> p in rewards[..n] || p == rewards[n];
    }
  }

  /** Paid once, a user receives the amount of the one reward, or nothing. */
  lemma {:induction false} ReceivedOnce(rewards: seq<Reward>, u: User)
    requires PaidOnce(rewards)
    ensures (exists p :: p in rewards && p.user == u && Received(rewards, u) == p.amount)
      || (Received(rewards, u) == 0 && forall p :: p in rewards ==> p.user != u)
    decreases |rewards|
  {
    if rewards != [] {
      var n := |rewards| - 1;
      ReceivedOnce(rewards[..n], u);
      assert rewards == rewards[..n] + [rewards[n]];
      if rewards[n].user == u {
        assert forall p :: p in rewards[..n] ==> p.user != u;
        assert rewards[n] in rewards;
      }
    }
  }

  lemma {:induction false} SumAdds(f: User -> int, g: User -> int, h: User -> int, keys: set<User>)
    requires forall u :: u in keys ==> h(u) == f(u) + g(u)
    ensures Sum(h, keys) == Sum(f, keys) + Sum(g, keys)
  {
    if keys != {} {
      var u :| u in keys;
      SumSplit(f, keys, u);
      SumSplit(g, keys, u);
      SumSplit(h, keys, u);
      SumAdds(f, g, h, keys - {u});
    }
  }

  function DealtTo(a: Agent): User -> int {
    u => StatOf(a, u).deal
  }

  /** A block adds exactly its bonus to what the staking agent's users have been dealt. */
  lemma DealtInFull(a: Agent, bonus: int)
    requires Balanced(a) && a.total > 0 && bonus >= 0
    ensures BonusMap(a, bonus).Some?
    ensures var b := Deals(a, BonusMap(a, bonus).value);
      b.users.Keys == a.users.Keys && Sum(DealtTo(b), a.users.Keys) == Sum(DealtTo(a), a.users.Keys) + bonus
  {
    hide Balanced, BonusMap, Share;
    BonusExact(a, bonus);
    var m := BonusMap(a, bonus).value;
    var paid := (u: User) => Paid(m, u);
    SumSame(u => Paid(m, u), paid, m.Keys);
    SumZeros(paid, a.users.Keys, m.Keys);
    SumAdds(DealtTo(a), paid, DealtTo(Deals(a, m)), a.users.Keys);
  }

  /** With nobody paid twice, the test of each output bounds what every user receives by the expected reward. */
  lemma AcceptedOnce(r: Rules, l: Ledger, h: int, id: AgentId, rewards: seq<Reward>, u: User)
    requires Positive(r) && EachExpected(r, l, h, id, rewards) && PaidOnce(rewards)
    ensures Received(rewards, u) <= (if Expected(r, l, h, id, u).Some? then Expected(r, l, h, id, u).value else 0)
  {
    ReceivedOnce(rewards, u);
  }

  /** Everyone who is paid has an expected reward and receives no more than that in all. */
  ghost predicate Within(r: Rules, l: Ledger, h: int, id: AgentId, rewards: seq<Reward>) {
    forall p :: p in rewards ==> Expected(r, l, h, id, p.user).Some? && Received(rewards, p.user) <= Expected(r, l, h, id, p.user).value
  }

  /** The coin-stake test keeps the rewards of users paid once within what is expected, for every
      list of rewards, exactly when it looks at them. */
  lemma TestBounds(r: Rules, l: Ledger, h: nat, onTip: bool, id: AgentId)
    requires Positive(r)
    ensures Examined(r, l, h, onTip) <==>
      forall rewards: seq<Reward> :: Accepted(r, l, h, onTip, id, rewards) && PaidOnce(rewards) ==> Within(r, l, h, id, rewards)
  {
    hide Expected;
    if Examined(r, l, h, onTip) {
      forall rewards: seq<Reward> | Accepted(r, l, h, onTip, id, rewards) && PaidOnce(rewards) ensures Within(r, l, h, id, rewards) {
        forall p | p in rewards ensures Received(rewards, p.user) <= Expected(r, l, h, id, p.user).value {
          AcceptedOnce(r, l, h, id, rewards, p.user);
        }
      }
    } else {
      var u := User(0);
      var expected := Expected(r, l, h, id, u);
      var one := [Reward(u, if expected.Some? then expected.value + 1 else 1)];
      assert one[..0] == [] && Received(one, u) == one[0].amount;
      assert one[0] in one && !Within(r, l, h, id, one);
    }
  }

  function UsersOf(rewards: seq<Reward>): (us: seq<User>)
    ensures |us| == |rewards|
  {
    seq(|rewards|, i requires 0 <= i < |rewards| => rewards[i].user)
  }

  /** The full expected reward for each user of a list. */
  ghost function FullRewards(r: Rules, l: Ledger, h: int, id: AgentId, us: seq<User>): (rewards: seq<Reward>)
    requires forall u :: u in us ==> Expected(r, l, h, id, u).Some?
    ensures |rewards| == |us|
  {
    seq(|us|, i requires 0 <= i < |us| => Reward(us[i], Expected(r, l, h, id, us[i]).value))
  }

  lemma {:induction false} ReceivedAtLeast(rewards: seq<Reward>, i: nat)
    requires i < |rewards| && forall p :: p in rewards ==> p.amount >= 0
    ensures Received(rewards, rewards[i].user) >= rewards[i].amount
    decreases |rewards|
  {
    var n := |rewards| - 1;
    assert rewards[n] in rewards && forall p :: p in rewards[..n] ==> p in rewards;
    if i < n {
      ReceivedAtLeast(rewards[..n], i);
    } else {
      ReceivedNonNegative(rewards[..n], rewards[n].user);
    }
  }

  lemma {:induction false} ReceivedNonNegative(rewards: seq<Reward>, u: User)
    requires forall p :: p in rewards ==> p.amount >= 0
    ensures Received(rewards, u) >= 0
    decreases |rewards|
  {
    if rewards != [] {
      var n := |rewards| - 1;
      assert rewards[n] in rewards && forall p :: p in rewards[..n] ==> p in rewards;
      ReceivedNonNegative(rewards[..n], u);
    }
  }

  /** Someone named twice receives both amounts. */
  lemma {:induction false} ReceivedBoth(rewards: seq<Reward>, i: nat, j: nat)
    requires i < j < |rewards| && rewards[i].user == rewards[j].user && forall p :: p in rewards ==> p.amount >= 0
    ensures Received(rewards, rewards[i].user) >= rewards[i].amount + rewards[j].amount
    decreases |rewards|
  {
    var n := |rewards| - 1;
    assert rewards[n] in rewards && forall p :: p in rewards[..n] ==> p in rewards;
    if j < n {
      ReceivedBoth(rewards[..n], i, j);
    } else {
      ReceivedAtLeast(rewards[..n], i);
    }
  }

  /** For users with expected rewards, everything the test lets through stays within those exactly
      when no user is named twice. */
  lemma ListBounds(r: Rules, l: Ledger, h: int, id: AgentId, us: seq<User>)
    requires Positive(r) && forall u :: u in us ==> Expected(r, l, h, id, u).Some?
    ensures (forall i, j :: 0 <= i < j < |us| ==> us[i] != us[j]) <==>
      forall rewards: seq<Reward> :: UsersOf(rewards) == us && EachExpected(r, l, h, id, rewards) ==> Within(r, l, h, id, rewards)
  {
    hide Expected;
    if i, j :| 0 <= i < j < |us| && us[i] == us[j] {
      RepeatedExceeds(r, l, h, id, us, i, j);
    } else {
      forall rewards: seq<Reward> | UsersOf(rewards) == us && EachExpected(r, l, h, id, rewards) ensures Within(r, l, h, id, rewards) {
        assert forall k :: 0 <= k < |rewards| ==> rewards[k].user == us[k];
        forall p | p in rewards ensures Received(rewards, p.user) <= Expected(r, l, h, id, p.user).value {
          AcceptedOnce(r, l, h, id, rewards, p.user);
        }
      }
    }
  }

  /** An expected reward is at least the least reward of the height. */
  lemma ExpectedAtLeast(r: Rules, l: Ledger, h: int, id: AgentId, u: User)
    requires Expected(r, l, h, id, u).Some?
    ensures Expected(r, l, h, id, u).value >= r.minReward(h)
  {
  }

  lemma RepeatedExceeds(r: Rules, l: Ledger, h: int, id: AgentId, us: seq<User>, i: nat, j: nat)
    requires Positive(r) && i < j < |us| && us[i] == us[j] && forall u :: u in us ==> Expected(r, l, h, id, u).Some?
    ensures var full := FullRewards(r, l, h, id, us);
      UsersOf(full) == us && EachExpected(r, l, h, id, full) && !Within(r, l, h, id, full)
  {
    hide Expected;
    var full := FullRewards(r, l, h, id, us);
    assert UsersOf(full) == us;
    forall p | p in full ensures Expected(r, l, h, id, p.user).Some? && 0 < p.amount == Expected(r, l, h, id, p.user).value {
      var k :| 0 <= k < |full| && full[k] == p;
      ExpectedAtLeast(r, l, h, id, us[k]);
    }
    ReceivedBoth(full, i, j);
    assert full[i] in full;
  }

  /** The full reward twice passes the test, whether it is looked at or not, and pays too much. */
  lemma PaidTwice(r: Rules, l: Ledger, h: nat, onTip: bool, id: AgentId, u: User)
    requires Positive(r) && Expected(r, l, h, id, u).Some?
    ensures var reward := Expected(r, l, h, id, u).value;
      var twice := [Reward(u, reward), Reward(u, reward)];
      Accepted(r, l, h, onTip, id, twice) && Received(twice, u) > reward
  {
    var reward := Expected(r, l, h, id, u).value;
    var twice := [Reward(u, reward), Reward(u, reward)];
    assert twice[..1] == [Reward(u, reward)] && twice[..1][..0] == [];
    assert Received(twice[..1], u) == reward;
  }

  // ---------- The invariant over all heights ----------

  /** Nobody was paid more than dealt, and a user's entry has been there since the joining height,
      with no more dealt at earlier heights. */
  ghost predicate Inv(l: Ledger) {
    && (forall h :: h in l ==> AllBalanced(l[h]))
    && (forall h, id, u :: StatAt(l, h, id, u).Some? ==>
          StatAt(l, h, id, u).value.dividend <= StatAt(l, h, id, u).value.deal && StatAt(l, h, id, u).value.join <= h)
    && (forall g, h, id, u {:trigger StatAt(l, g, id, u), StatAt(l, h, id, u)} :: g in l && g <= h ==> SinceJoined(l, g, h, id, u))
  }

  ghost predicate SinceJoined(l: Ledger, g: int, h: int, id: AgentId, u: User) {
    StatAt(l, h, id, u).Some? && StatAt(l, h, id, u).value.join <= g ==>
      StatAt(l, g, id, u).Some? && StatAt(l, g, id, u).value.deal <= StatAt(l, h, id, u).value.deal
  }

  /** What the chain lets through, but for two things it does not look at: a height above all
      recorded ones, rewards that pass the coin-stake test, with no user twice, and withdrawals
      bounded by holdings. */
  ghost predicate Allowed(r: Rules, l: Ledger, h: nat, onTip: bool, b: Block)
    requires RulesOk(r)
  {
    && (forall g :: g in l ==> g < h)
    && (b.staker.Some? ==> Accepted(r, l, h, onTip, b.staker.value, b.rewards) && PaidOnce(b.rewards))
    && var stage := Rewarded(r, InitHeight(r, l, h), h, b);
      stage.Ready? ==> Covered(ResignAll(CreateAll(stage.agents, b.creates), b.resigns), b.transfers, h)
  }

  /** A block that pays nothing, or whose rewards the test looks at. */
  predicate Watched(r: Rules, l: Ledger, h: nat, onTip: bool, b: Block) {
    b.staker.Some? && b.rewards != [] ==> Examined(r, l, h, onTip)
  }

  /** An expected reward is covered by what had been dealt at the previous height. */
  lemma RewardCovered(r: Rules, l: Ledger, h: int, id: AgentId, u: User)
    requires Inv(l) && Expected(r, l, h, id, u).Some?
    ensures StatAt(l, h - 1, id, u).Some?
    ensures var prev := StatAt(l, h - 1, id, u).value;
      prev.dividend + Expected(r, l, h, id, u).value <= prev.deal
  {
    var base := h - BASE_OFFSET;
    assert base in l && SinceJoined(l, base, h - 1, id, u);
  }

  lemma InitHeightShape(r: Rules, l: Ledger, h: nat)
    requires RulesOk(r) && h !in l
    ensures var l1 := InitHeight(r, l, h);
      && h in l1 && l1[h] == Previous(l, h)
      && forall g :: g in l1 && g != h ==> g in l && l1[g] == l[g]
  {
  }

  /** The bonus and the rewards carry every entry on. */
  lemma RewardedFollow(r: Rules, l: Ledger, h: nat, onTip: bool, b: Block)
    requires RulesOk(r) && Positive(r) && Inv(l) && Allowed(r, l, h, onTip, b) && Watched(r, l, h, onTip, b)
    ensures var stage := Rewarded(r, InitHeight(r, l, h), h, b);
      && stage != Stop(Threw)
      && (stage.Ready? ==> AllFollow(Previous(l, h), stage.agents, h) && AllBalanced(stage.agents))
  {
    hide SinceJoined, Covered, Balanced, AllFollow;
    var l1, start := InitHeight(r, l, h), Previous(l, h);
    InitHeightShape(r, l, h);
    PreviousOk(l, h);
    if b.staker.Some? && b.staker.value in start {
      var id := b.staker.value;
      DealMapOk(r, l1, h, id, start);
      var m := DealMap(r, l1, h, id).value;
      DealsBalanced(start[id], m);
      PayAllBalanced(Deals(start[id], m), b.rewards);
      StakerFollow(r, l, h, b, m);
    }
  }

  lemma PreviousOk(l: Ledger, h: int)
    requires Inv(l)
    ensures AllBalanced(Previous(l, h)) && AllFollow(Previous(l, h), Previous(l, h), h)
    ensures forall id, u :: UserIn(Previous(l, h), id, u).Some? ==> StatAt(l, h - 1, id, u) == UserIn(Previous(l, h), id, u)
  {
    hide Balanced, SinceJoined;
    var start := Previous(l, h);
    forall id, u | id in start && u in start[id].users ensures Follows(UserIn(start, id, u), start[id].users[u], h) {
      assert StatAt(l, h - 1, id, u).Some?;
    }
  }

  /** The bonus map exists, names users who are there, and has no negative amount. */
  lemma DealMapOk(r: Rules, l1: Ledger, h: int, id: AgentId, start: AgentMap)
    requires Positive(r) && AllBalanced(start) && id in start && (h - 1 in l1 ==> l1[h - 1] == start)
    ensures DealMap(r, l1, h, id).Some?
    ensures forall u :: u in DealMap(r, l1, h, id).value ==> u in start[id].users && DealMap(r, l1, h, id).value[u] >= 0
  {
    hide Sum;
    if h - 1 in l1 {
      BonusExact(start[id], r.bonus(h));
    }
  }

  lemma StakerFollow(r: Rules, l: Ledger, h: nat, b: Block, m: map<User, int>)
    requires RulesOk(r) && Inv(l) && b.staker.Some? && b.staker.value in Previous(l, h)
    requires EachExpected(r, l, h, b.staker.value, b.rewards) && PaidOnce(b.rewards)
    requires forall u :: u in m ==> u in Previous(l, h)[b.staker.value].users && m[u] >= 0
    ensures var start, id := Previous(l, h), b.staker.value;
      AllFollow(start, start[id := PayAll(Deals(start[id], m), b.rewards)], h)
  {
    hide SinceJoined, Balanced;
    var start, id := Previous(l, h), b.staker.value;
    var a := PayAll(Deals(start[id], m), b.rewards);
    PreviousOk(l, h);
    forall u | u in a.users ensures Follows(UserIn(start, id, u), a.users[u], h) {
      StakerUserFollows(r, l, h, b, m, u);
    }
  }

  lemma StakerUserFollows(r: Rules, l: Ledger, h: nat, b: Block, m: map<User, int>, u: User)
    requires RulesOk(r) && Inv(l) && b.staker.Some? && b.staker.value in Previous(l, h)
    requires EachExpected(r, l, h, b.staker.value, b.rewards) && PaidOnce(b.rewards)
    requires forall v :: v in m ==> v in Previous(l, h)[b.staker.value].users && m[v] >= 0
    requires u in PayAll(Deals(Previous(l, h)[b.staker.value], m), b.rewards).users
    ensures var start, id := Previous(l, h), b.staker.value;
      Follows(UserIn(start, id, u), PayAll(Deals(start[id], m), b.rewards).users[u], h)
  {
    hide Inv, Expected;
    var start, id := Previous(l, h), b.staker.value;
    var dealt := Deals(start[id], m);
    PayAllStat(dealt, b.rewards, u);
    ReceivedOnce(b.rewards, u);
    if p :| p in b.rewards && p.user == u && Received(b.rewards, u) == p.amount {
      RewardCovered(r, l, h, id, u);
    }
    PaidNotMore(l, h, id, u);
  }

  lemma PaidNotMore(l: Ledger, h: int, id: AgentId, u: User)
    requires Inv(l)
    ensures UserIn(Previous(l, h), id, u).Some? ==>
      UserIn(Previous(l, h), id, u) == StatAt(l, h - 1, id, u) && UserIn(Previous(l, h), id, u).value.dividend <= UserIn(Previous(l, h), id, u).value.deal
  {
  }

  // ---------- Blocks ----------

  /** An entry at the new height: carried on from the previous height or joined now. */
  ghost predicate TopOk(l: Ledger, m: AgentMap, h: int) {
    forall id, u :: UserIn(m, id, u).Some? ==>
      var s, prev := UserIn(m, id, u).value, StatAt(l, h - 1, id, u);
      && s.dividend <= s.deal
      && (s.join == h || (prev.Some? && s.join == prev.value.join && prev.value.deal <= s.deal))
  }

  /** Putting such entries on top of a ledger, possibly with old heights erased, keeps it sound. */
  lemma TopKeeps(l: Ledger, l': Ledger, m: AgentMap, h: nat)
    requires Inv(l) && (forall g :: g in l ==> g < h)
    requires h in l' && l'[h] == m && forall g :: g in l' && g != h ==> g in l && l'[g] == l[g]
    requires AllBalanced(m) && TopOk(l, m, h)
    ensures Inv(l')
  {
    hide Balanced;
    forall k, id, u | StatAt(l', k, id, u).Some?
      ensures StatAt(l', k, id, u).value.dividend <= StatAt(l', k, id, u).value.deal && StatAt(l', k, id, u).value.join <= k
    {
      TopEntry(l, l', m, h, k, id, u);
    }
    forall g, k, id, u | g in l' && g <= k ensures SinceJoined(l', g, k, id, u) {
      TopSinceJoined(l, l', m, h, g, k, id, u);
    }
  }

  lemma TopEntry(l: Ledger, l': Ledger, m: AgentMap, h: int, k: int, id: AgentId, u: User)
    requires Inv(l)
    requires h in l' && l'[h] == m && forall g :: g in l' && g != h ==> g in l && l'[g] == l[g]
    requires TopOk(l, m, h) && StatAt(l', k, id, u).Some?
    ensures StatAt(l', k, id, u).value.dividend <= StatAt(l', k, id, u).value.deal && StatAt(l', k, id, u).value.join <= k
  {
    hide Balanced, SinceJoined;
    if k == h {
      assert UserIn(m, id, u) == StatAt(l', h, id, u);
    } else {
      assert StatAt(l, k, id, u) == StatAt(l', k, id, u);
    }
  }

  lemma TopSinceJoined(l: Ledger, l': Ledger, m: AgentMap, h: int, g: int, k: int, id: AgentId, u: User)
    requires Inv(l) && g in l' && g <= k && (forall g :: g in l ==> g < h)
    requires h in l' && l'[h] == m && forall g :: g in l' && g != h ==> g in l && l'[g] == l[g]
    requires TopOk(l, m, h)
    ensures SinceJoined(l', g, k, id, u)
  {
    hide Balanced;
    if k in l' {
      if k != h {
        assert StatAt(l, k, id, u) == StatAt(l', k, id, u) && StatAt(l, g, id, u) == StatAt(l', g, id, u);
        assert SinceJoined(l, g, k, id, u);
      } else if g != h {
        assert UserIn(m, id, u) == StatAt(l', h, id, u);
        assert StatAt(l, g, id, u) == StatAt(l', g, id, u);
        assert g in l && g <= h - 1;
        assert SinceJoined(l, g, h - 1, id, u);
      }
    }
  }

  /** Every block the chain lets through with its rewards looked at keeps the totals exact and pays nobody more than was dealt
      to them, through the erasure of inactive users and their joining again; and no bonus throws. */
  lemma AddKeeps(r: Rules, l: Ledger, h: nat, onTip: bool, b: Block)
    requires RulesOk(r) && Positive(r) && Inv(l) && Allowed(r, l, h, onTip, b) && Watched(r, l, h, onTip, b)
    ensures Inv(AddBlock(r, l, h, b).0) && AddBlock(r, l, h, b).1 != Threw
  {
    hide Inv, TopOk, AllFollow, AllBalanced, Covered, Settle, Previous;
    var l1 := InitHeight(r, l, h);
    var l' := AddBlock(r, l, h, b).0;
    InitHeightShape(r, l, h);
    RewardedFollow(r, l, h, onTip, b);
    PreviousOk(l, h);
    match Rewarded(r, l1, h, b)
    case Stop(_) =>
      CopyTopOk(l, h);
      TopKeeps(l, l1, Previous(l, h), h);
    case Ready(m) =>
      var settled := Settle(m, b, h, r.minReward(h));
      SettleBalanced(m, b, h, r.minReward(h));
      SettleTopOk(l, m, b, h, r.minReward(h));
      TopKeeps(l, l1[h := settled], settled, h);
  }

  lemma CopyTopOk(l: Ledger, h: int)
    requires Inv(l)
    ensures TopOk(l, Previous(l, h), h)
  {
    hide Balanced, SinceJoined;
    PreviousOk(l, h);
  }

  lemma SettleTopOk(l: Ledger, m: AgentMap, b: Block, h: int, least: int)
    requires Inv(l) && least > 0 && AllFollow(Previous(l, h), m, h)
    requires Covered(ResignAll(CreateAll(m, b.creates), b.resigns), b.transfers, h)
    ensures TopOk(l, Settle(m, b, h, least), h)
  {
    hide Inv, Covered, AllFollow;
    var start := Previous(l, h);
    CreateAllFollow(start, m, b.creates, h);
    var created := CreateAll(m, b.creates);
    ResignAllFollow(start, created, b.resigns, h);
    var left := ResignAll(created, b.resigns);
    MoveAllFollow(start, left, b.transfers, h);
    var moved := MoveAll(left, b.transfers, h);
    ClearFollow(start, moved, h, least);
    PreviousOk(l, h);
  }

  // ---------- Runs ----------

  /** Erasing heights keeps the invariant. */
  lemma RevertKeeps(l: Ledger, h: int)
    requires Inv(l)
    ensures Inv(Revert(l, h))
  {
    hide Balanced, Revert;
    var l' := Revert(l, h);
    RevertSubset(l, h);
    forall k, id, u | StatAt(l', k, id, u).Some?
      ensures StatAt(l', k, id, u).value.dividend <= StatAt(l', k, id, u).value.deal && StatAt(l', k, id, u).value.join <= k
    {
      assert StatAt(l, k, id, u) == StatAt(l', k, id, u);
    }
    forall g, k, id, u | g in l' && g <= k ensures SinceJoined(l', g, k, id, u) {
      assert SinceJoined(l, g, k, id, u);
    }
  }

  lemma RevertSubset(l: Ledger, h: int)
    ensures forall g :: g in Revert(l, h) ==> g in l && Revert(l, h)[g] == l[g]
  {
  }

  /** onTip says whether the block was checked with the block before it as the tip. */
  datatype Op = Connect(h: nat, onTip: bool, b: Block) | Disconnect(to: int)

  ghost function Apply(r: Rules, l: Ledger, op: Op): Ledger
    requires RulesOk(r)
  {
    match op
    case Connect(h, _, b) => AddBlock(r, l, h, b).0
    case Disconnect(h) => Revert(l, h)
  }

  ghost predicate IsRun(r: Rules, l: Ledger, ops: seq<Op>)
    requires RulesOk(r)
    decreases |ops|
  {
    ops != [] ==>
      && (ops[0].Connect? ==> Allowed(r, l, ops[0].h, ops[0].onTip, ops[0].b))
      && IsRun(r, Apply(r, l, ops[0]), ops[1..])
  }

  ghost function Run(r: Rules, l: Ledger, ops: seq<Op>): Ledger
    requires RulesOk(r)
    decreases |ops|
  {
    if ops == [] then l else Run(r, Apply(r, l, ops[0]), ops[1..])
  }

  /** In the run, every block that pays rewards has them looked at. */
  ghost predicate AllWatched(r: Rules, l: Ledger, ops: seq<Op>)
    requires RulesOk(r)
    decreases |ops|
  {
    ops != [] ==>
      && (ops[0].Connect? ==> Watched(r, l, ops[0].h, ops[0].onTip, ops[0].b))
      && AllWatched(r, Apply(r, l, ops[0]), ops[1..])
  }

  /** Through any such run of blocks connected and disconnected, at every height, for every agent and
      user: what was paid is at most what was dealt, and every agent's total is what its users
      hold. */
  lemma RunNeverOverpays(r: Rules, ops: seq<Op>)
    requires RulesOk(r) && Positive(r) && IsRun(r, map[], ops) && AllWatched(r, map[], ops)
    ensures var l := Run(r, map[], ops);
      && (forall h, id, u :: StatAt(l, h, id, u).Some? ==> StatAt(l, h, id, u).value.dividend <= StatAt(l, h, id, u).value.deal)
      && (forall h, id :: AgentAt(l, h, id).Some? ==> Balanced(AgentAt(l, h, id).value))
  {
    RunKeeps(r, map[], ops);
  }

  lemma {:induction false} RunKeeps(r: Rules, l: Ledger, ops: seq<Op>)
    requires RulesOk(r) && Positive(r) && Inv(l) && IsRun(r, l, ops) && AllWatched(r, l, ops)
    ensures Inv(Run(r, l, ops))
    decreases |ops|
  {
    hide Inv, Allowed, Watched, AddBlock, Revert;
    if ops != [] {
      match ops[0] {
        case Connect(h, onTip, b) => AddKeeps(r, l, h, onTip, b);
        case Disconnect(h) => RevertKeeps(l, h);
      }
      RunKeeps(r, Apply(r, l, ops[0]), ops[1..]);
    }
  }

  // ---------- Disconnecting and connecting again ----------

  /** Disconnecting a block just connected leaves the ledger as it was, but for the heights that
      were too old to keep; connecting it again then gives the same ledger. */
  lemma ConnectAgain(r: Rules, l: Ledger, h: nat, b: Block)
    requires RulesOk(r) && r.keep >= 2 && forall g :: g in l ==> g < h
    ensures var l' := Revert(AddBlock(r, l, h, b).0, h - 1);
      && (forall g :: g in l' <==> g in l && g >= h - r.keep + 1)
      && (forall g :: g in l' ==> l'[g] == l[g])
      && AddBlock(r, l', h, b) == AddBlock(r, l, h, b)
  {
    hide Settle, BonusMap, Revert, Rewarded;
    var top, l1 := AddBlock(r, l, h, b).0, InitHeight(r, l, h);
    var l' := Revert(top, h - 1);
    InitHeightShape(r, l, h);
    RevertTop(top, h);
    assert forall g :: g in l' ==> g in l1 && l'[g] == l1[g];
    SameInit(r, l, l', h);
  }

  lemma RevertTop(top: Ledger, h: nat)
    requires h in top && forall g :: g in top ==> g <= h
    ensures Revert(top, h - 1) == top - {h}
  {
  }

  lemma SameInit(r: Rules, l: Ledger, l': Ledger, h: nat)
    requires RulesOk(r) && r.keep >= 2 && (forall g :: g in l ==> g < h)
    requires forall g :: g in l' <==> g in l && g >= h - r.keep + 1
    requires forall g :: g in l' ==> l'[g] == l[g]
    ensures InitHeight(r, l', h) == InitHeight(r, l, h)
  {
    assert Previous(l, h) == Previous(l', h);
  }

  /** With only one height kept the previous one is gone, and the same block gives another ledger. */
  lemma ConnectAgainNeedsTwo(r: Rules, l: Ledger, h: nat, b: Block)
    requires RulesOk(r) && r.keep == 1 && h > 0 && h - 1 in l && (forall g :: g in l ==> g < h)
    ensures Previous(Revert(AddBlock(r, l, h, b).0, h - 1), h) == map[]
  {
  }
}
