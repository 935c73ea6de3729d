/** The entrust ledger as an object updated in place: the methods of Entrustment in src/entrustment.cpp. */
module EntrustObject {
  import opened Basics
  import opened EntrustBonus
  import opened Entrustment
  import opened EntrustRuns

  /** The loop of GetBonusMap over the users in the order of their addresses: the shares and their
      sum, or None where WeightAmount throws. */
  method Shares(agent: Agent, blockBonus: int) returns (r: Option<(map<User, int>, int)>)
    requires agent.total > 0
    ensures r.None? <==> exists u :: u in Entrusted(agent) && !WeightOk(blockBonus, agent.users[u].entrust, agent.total)
    ensures r.Some? ==>
      && r.value.0 == (map u | u in Entrusted(agent) :: Share(agent, blockBonus, u))
      && r.value.1 == Sum(u => Share(agent, blockBonus, u), Entrusted(agent))
  {
    hide Sum, Weight;
    ghost var us, share := Entrusted(agent), (u: User) => Share(agent, blockBonus, u);
    var bonusMap: map<User, int> := map[];
    var totalBonus := 0;
    var left := agent.users.Keys;
    SumNone(share);
    assert bonusMap.Keys == {};
    while left != {}
      invariant left <= agent.users.Keys
      invariant bonusMap.Keys == us - left && forall u :: u in bonusMap ==> bonusMap[u] == Share(agent, blockBonus, u)
      invariant forall u :: u in bonusMap ==> WeightOk(blockBonus, agent.users[u].entrust, agent.total)
      invariant totalBonus == Sum(share, bonusMap.Keys)
    {
      var user := First(left);
      var amount := agent.users[user].entrust;
      if amount > 0 {
        assert user in us;
        if !WeightOk(blockBonus, amount, agent.total) {
          return None;
        }
        var bonus := Weight(blockBonus, amount, agent.total);
        assert bonus == share(user);
        SumSplit(share, bonusMap.Keys + {user}, user);
        assert bonusMap.Keys + {user} - {user} == bonusMap.Keys;
        ghost var keys := bonusMap.Keys + {user};
        bonusMap := bonusMap[user := bonus];
        assert bonusMap.Keys == keys;
        totalBonus := totalBonus + bonus;
      }
      left := left - {user};
    }
    assert bonusMap.Keys == us;
    SumSame(share, u => Share(agent, blockBonus, u), us);
    return Some((bonusMap, totalBonus));
  }

  lemma SumNone(f: User -> int)
    ensures Sum(f, {}) == 0
  {
  }

  /** GetBonusMap on an agent; None where the source throws. */
  method GetBonusMap(agent: Agent, blockBonus: int) returns (result: Option<map<User, int>>)
    ensures result == BonusMap(agent, blockBonus)
  {
    hide Sum, Share, WeightOk;
    if agent.total < 0 {
      return None;
    }
    if agent.total == 0 {
      return Some(map[]);
    }
    var r := Shares(agent, blockBonus);
    if r.None? {
      return None;
    }
    var (bonusMap, totalBonus) := r.value;
    assert bonusMap.Keys == Entrusted(agent);
    if totalBonus < blockBonus && bonusMap != map[] {
      var first := First(bonusMap.Keys);
      bonusMap := bonusMap[first := bonusMap[first] + (blockBonus - totalBonus)];
    }
    return Some(bonusMap);
  }

  class Ledgers {
    var agentMaps: Ledger
    const rules: Rules

    constructor (r: Rules)
      ensures agentMaps == map[] && rules == r
    {
      agentMaps := map[];
      rules := r;
    }

    /** GetExpectDivideRewardMap. */
    method GetExpectDivideRewardMap(height: int, agentid: AgentId) returns (result: map<User, int>)
      ensures forall u :: u in result <==> Expected(rules, agentMaps, height, agentid, u).Some?
      ensures forall u :: u in result ==> result[u] == Expected(rules, agentMaps, height, agentid, u).value
    {
      result := map[];
      var prevHeight, baseheight := height - 1, height - BASE_OFFSET;
      if baseheight < rules.posStart {
        return;
      }
      var baseAgent := AgentAt(agentMaps, baseheight, agentid);
      if baseAgent.None? {
        return;
      }
      var left := baseAgent.value.users.Keys;
      while left != {}
        invariant left <= baseAgent.value.users.Keys
        invariant forall u :: u in result <==> u !in left && Expected(rules, agentMaps, height, agentid, u).Some?
        invariant forall u :: u in result ==> result[u] == Expected(rules, agentMaps, height, agentid, u).value
      {
        var user := First(left);
        left := left - {user};
        var prev := StatAt(agentMaps, prevHeight, agentid, user);
        if prev.Some? && baseheight >= prev.value.join {
          var reward := baseAgent.value.users[user].deal - prev.value.dividend;
          if reward >= rules.minReward(height) {
            result := result[user := reward];
          }
        }
      }
    }

    /** InitHeightAmount. */
    method InitHeightAmount(height: nat)
      requires RulesOk(rules)
      modifies this
      ensures agentMaps == InitHeight(rules, old(agentMaps), height)
    {
      if height in agentMaps {
        return;
      }
      if height == 0 || height - 1 !in agentMaps {
        agentMaps := agentMaps[height := map[]];
      } else {
        agentMaps := agentMaps[height := agentMaps[height - 1]];
      }
      EraseBelow(height - rules.keep + 1);
    }

    /** Erases the heights below the bound, from the lowest on. */
    method EraseBelow(bound: int)
      modifies this
      ensures agentMaps == map x: nat | x in old(agentMaps) && x >= bound :: old(agentMaps)[x]
    {
      ghost var kept := map x: nat | x in agentMaps && x >= bound :: agentMaps[x];
      var lowest := LowestHeight();
      var h := if lowest.Some? then lowest.value else bound;
      while h < bound
        invariant forall x :: x in agentMaps <==> x in old(agentMaps) && (x >= bound || x >= h)
        invariant forall x :: x in agentMaps ==> agentMaps[x] == old(agentMaps)[x]
      {
        agentMaps := agentMaps - {h};
        h := h + 1;
      }
      assert agentMaps == kept;
    }

    /** The lowest height recorded; None stands for the largest number, which is above every height. */
    method LowestHeight() returns (least: Option<nat>)
      ensures least.None? <==> agentMaps == map[]
      ensures least.Some? ==> least.value in agentMaps && forall x :: x in agentMaps ==> least.value <= x
    {
      least := None;
      var left := agentMaps.Keys;
      while left != {}
        invariant left <= agentMaps.Keys
        invariant least.None? ==> left == agentMaps.Keys
        invariant least.Some? ==> least.value in agentMaps && forall x: nat :: x in agentMaps && x !in left ==> least.value <= x
      {
        var x: nat :| x in left;
        if least.None? || x < least.value {
          least := Some(x);
        }
        left := left - {x};
      }
    }

    /** The reward test of CheckCoinStake, for a block at the given height; onTip says whether the
        block before it is the tip. */
    method CheckCoinStake(height: nat, onTip: bool, agentid: AgentId, rewards: seq<Reward>) returns (ok: bool)
      ensures ok <==> Accepted(rules, agentMaps, height, onTip, agentid, rewards)
    {
      hide Expected;
      var blockheight := if onTip then height as int else -1;
      if blockheight < rules.posStart || !rules.checkRewards {
        return true;
      }
      var baseheight := blockheight - BASE_OFFSET;
      var lowest := LowestHeight();
      if lowest.None? || baseheight < lowest.value {
        return true;
      }
      assert Examined(rules, agentMaps, height, onTip);
      if AgentAt(agentMaps, blockheight - 1, agentid).None? {
        return false;
      }
      var expected := GetExpectDivideRewardMap(blockheight, agentid);
      for i := 0 to |rewards|
        invariant EachExpected(rules, agentMaps, height, agentid, rewards[..i])
      {
        var user, actual := rewards[i].user, rewards[i].amount;
        assert rewards[i] in rewards;
        if user !in expected || actual > expected[user] {
          return false;
        }
      }
      assert rewards[..|rewards|] == rewards;
      return true;
    }

    /** ClearInactiveEntrustUser, for the agents of one height. */
    method ClearInactiveEntrustUser(agents: AgentMap, least: int) returns (cleared: AgentMap)
      ensures cleared == ClearInactive(agents, least)
    {
      cleared := agents;
      var left := agents.Keys;
      while left != {}
        invariant left <= agents.Keys == cleared.Keys
        invariant forall id :: id in agents ==> cleared[id] == if id in left then agents[id] else ClearAgent(agents[id], least)
      {
        var id :| id in left;
        var agent := ClearUsers(agents[id], least);
        cleared := cleared[id := agent];
        left := left - {id};
      }
    }

    method ClearUsers(agent: Agent, least: int) returns (r: Agent)
      ensures r == ClearAgent(agent, least)
    {
      var users, left := agent.users, agent.users.Keys;
      while left != {}
        invariant left <= agent.users.Keys
        invariant forall u :: u in users <==> u in agent.users && (u in left || Active(agent.users[u], least))
        invariant forall u :: u in users ==> users[u] == agent.users[u]
      {
        var u := First(left);
        if !Active(agent.users[u], least) {
          users := users - {u};
        }
        left := left - {u};
      }
      assert users == ClearAgent(agent, least).users;
      r := agent.(users := users);
    }

    /** The bonus of a block added to what was dealt to each user. */
    method AddDealDivideRewards(agent: Agent, m: map<User, int>) returns (r: Agent)
      ensures r == Deals(agent, m)
    {
      r := agent;
      var left := m.Keys;
      while left != {}
        invariant left <= m.Keys && r.total == agent.total
        invariant r.users.Keys == agent.users.Keys + (m.Keys - left)
        invariant forall u {:trigger StatOf(r, u)} :: StatOf(r, u) == StatOf(agent, u).(deal := StatOf(agent, u).deal + if u in m.Keys - left then m[u] else 0)
      {
        var u := First(left);
        assert StatOf(r, u) == StatOf(agent, u);
        ghost var before := r;
        r := SetStat(r, u, StatOf(r, u).(deal := StatOf(r, u).deal + m[u]));
        assert r.users.Keys == before.users.Keys + {u};
        assert forall v {:trigger StatOf(r, v)} :: v != u ==> StatOf(r, v) == StatOf(before, v);
        left := left - {u};
      }
      assert r.users.Keys == Deals(agent, m).users.Keys;
      forall u | u in r.users ensures r.users[u] == Deals(agent, m).users[u] {
        assert StatOf(r, u) == r.users[u];
      }
      assert r.users == Deals(agent, m).users;
    }

    method AddDividendRewards(agent: Agent, rewards: seq<Reward>) returns (r: Agent)
      ensures r == PayAll(agent, rewards)
    {
      r := agent;
      var i := 0;
      while i < |rewards|
        invariant 0 <= i <= |rewards| && r == PayAll(agent, rewards[..i])
      {
        assert rewards[..i + 1][..i] == rewards[..i];
        r := SetStat(r, rewards[i].user, StatOf(r, rewards[i].user).(dividend := StatOf(r, rewards[i].user).dividend + rewards[i].amount));
        i := i + 1;
      }
      assert rewards[..i] == rewards;
    }

    /** InitAgent, DelAgent, and AddEntrust or DepriveEntrust for each entry of the block. */
    method ApplyLists(agents: AgentMap, b: Block, height: int) returns (m: AgentMap)
      ensures m == MoveAll(ResignAll(CreateAll(agents, b.creates), b.resigns), b.transfers, height)
    {
      m := agents;
      var i := 0;
      while i < |b.creates|
        invariant 0 <= i <= |b.creates| && m == CreateAll(agents, b.creates[..i])
      {
        assert b.creates[..i + 1][..i] == b.creates[..i];
        if b.creates[i] !in m {
          m := m[b.creates[i] := Agent(0, map[])];
        }
        i := i + 1;
      }
      assert b.creates[..i] == b.creates;
      var created := m;
      i := 0;
      while i < |b.resigns|
        invariant 0 <= i <= |b.resigns| && m == ResignAll(created, b.resigns[..i])
      {
        assert b.resigns[..i + 1][..i] == b.resigns[..i];
        m := m - {b.resigns[i]};
        i := i + 1;
      }
      assert b.resigns[..i] == b.resigns;
      var left := m;
      i := 0;
      while i < |b.transfers|
        invariant 0 <= i <= |b.transfers| && m == MoveAll(left, b.transfers[..i], height)
      {
        assert b.transfers[..i + 1][..i] == b.transfers[..i];
        m := Move(m, b.transfers[i], height);
        i := i + 1;
      }
      assert b.transfers[..i] == b.transfers;
    }

    /** AddMetaBlock. */
    method AddMetaBlock(height: nat, b: Block) returns (outcome: Outcome)
      requires RulesOk(rules)
      modifies this
      ensures (agentMaps, outcome) == AddBlock(rules, old(agentMaps), height, b)
    {
      hide BonusMap, Deals, PayAll, ClearInactive, MoveAll, ResignAll, CreateAll, InitHeight;
      if height in agentMaps {
        return Refused;
      }
      InitHeightAmount(height);
      InitHeightShape(rules, old(agentMaps), height);
      var agents := agentMaps[height];
      if b.staker.Some? {
        var id := b.staker.value;
        if id !in agents {
          return Refused;
        }
        var previous := AgentAt(agentMaps, height - 1, id);
        var bonus: Option<map<User, int>> := Some(map[]);
        if previous.Some? {
          bonus := GetBonusMap(previous.value, rules.bonus(height));
        }
        if bonus.None? {
          return Threw;
        }
        var agent := AddDealDivideRewards(agents[id], bonus.value);
        agent := AddDividendRewards(agent, b.rewards);
        agents := agents[id := agent];
      }
      agents := ApplyLists(agents, b, height);
      agents := ClearInactiveEntrustUser(agents, rules.minReward(height));
      agentMaps := agentMaps[height := agents];
      return Done;
    }

    /** RevertToHeight. */
    method RevertToHeight(height: int)
      modifies this
      ensures agentMaps == Revert(old(agentMaps), height)
    {
      var h := height + 1;
      while h in agentMaps
        invariant h > height && forall x :: height < x < h ==> x in old(agentMaps)
        invariant forall x :: x in agentMaps <==> x in old(agentMaps) && !(height < x < h)
        invariant forall x :: x in agentMaps ==> agentMaps[x] == old(agentMaps)[x]
        decreases agentMaps.Keys
      {
        agentMaps := agentMaps - {h};
        h := h + 1;
      }
    }
  }
}
