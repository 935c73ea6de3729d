/** The ledger of entrusted amounts by block height, src/entrustment.cpp, with the rules that erase
    inactive users and record the joining height in force from the start. */
module Entrustment {
  import opened Basics
  import opened EntrustBonus

  datatype AgentId = AgentId(n: nat)
  type AgentMap = map<AgentId, Agent>
  type Ledger = map<nat, AgentMap>

  /** An entrust transaction's output, or with deprive its withdrawal. */
  datatype Transfer = Transfer(user: User, agent: AgentId, amount: int, deprive: bool)

  datatype Reward = Reward(user: User, amount: int)

  datatype BlockOf<R, I, T> = Block(staker: Option<AgentId>, rewards: R, creates: I, resigns: I, transfers: T)
  type Block = BlockOf<seq<Reward>, seq<AgentId>, seq<Transfer>>

  /** The block bonus and the least reward by height, the height proof of stake began at, how many
      heights are kept, and whether rewards are checked at all (-entrustrewardcheck). */
  datatype Rules = Rules(bonus: int -> int, minReward: int -> int, posStart: int, keep: int, checkRewards: bool)

  const BASE_OFFSET := 60

  predicate RulesOk(r: Rules) {
    r.keep > 0
  }

  ghost predicate Positive(r: Rules) {
    forall h: int :: r.bonus(h) >= 0 && r.minReward(h) > 0
  }

  // ---------- One agent ----------

  function Deals(a: Agent, m: map<User, int>): Agent {
    a.(users := map u | u in a.users.Keys + m.Keys ::
      StatOf(a, u).(deal := StatOf(a, u).deal + if u in m then m[u] else 0))
  }

  function PayAll(a: Agent, rewards: seq<Reward>): Agent
    decreases |rewards|
  {
    if rewards == [] then a
    else
      var n := |rewards| - 1;
      var b, p := PayAll(a, rewards[..n]), rewards[n];
      SetStat(b, p.user, StatOf(b, p.user).(dividend := StatOf(b, p.user).dividend + p.amount))
  }

  /** AddEntrust: who holds nothing joins now. */
  function Entrust(a: Agent, u: User, amount: int, h: int): Agent {
    var s := StatOf(a, u);
    SetStat(a, u, s.(join := if s.entrust == 0 then h else s.join, entrust := s.entrust + amount)).(total := a.total + amount)
  }

  function Deprive(a: Agent, u: User, amount: int): Agent {
    SetStat(a, u, StatOf(a, u).(entrust := StatOf(a, u).entrust - amount)).(total := a.total - amount)
  }

  predicate Active(s: Stat, least: int) {
    s.entrust > 0 || s.deal - s.dividend >= least
  }

  function ClearAgent(a: Agent, least: int): Agent {
    a.(users := map u | u in a.users && Active(a.users[u], least) :: a.users[u])
  }

  // ---------- All agents at one height ----------

  function CreateAll(m: AgentMap, ids: seq<AgentId>): AgentMap
    decreases |ids|
  {
    if ids == [] then m
    else
      var n := |ids| - 1;
      var c := CreateAll(m, ids[..n]);
      if ids[n] in c then c else c[ids[n] := Agent(0, map[])]
  }

  function ResignAll(m: AgentMap, ids: seq<AgentId>): AgentMap
    decreases |ids|
  {
    if ids == [] then m else ResignAll(m, ids[..|ids| - 1]) - {ids[|ids| - 1]}
  }

  function Move(m: AgentMap, t: Transfer, h: int): AgentMap {
    if t.agent !in m then m
    else m[t.agent := if t.deprive then Deprive(m[t.agent], t.user, t.amount) else Entrust(m[t.agent], t.user, t.amount, h)]
  }

  function MoveAll(m: AgentMap, ts: seq<Transfer>, h: int): AgentMap
    decreases |ts|
  {
    if ts == [] then m else Move(MoveAll(m, ts[..|ts| - 1], h), ts[|ts| - 1], h)
  }

  function ClearInactive(m: AgentMap, least: int): AgentMap {
    map id | id in m :: ClearAgent(m[id], least)
  }

  // ---------- A block ----------

  datatype Outcome = Done | Refused | Threw

  function Previous(l: Ledger, h: int): AgentMap {
    if h == 0 || h - 1 !in l then map[] else l[h - 1]
  }

  /** InitHeightAmount: the previous height copied, heights below the bound erased. */
  function InitHeight(r: Rules, l: Ledger, h: nat): Ledger {
    if h in l then l
    else map x: nat | x in l.Keys + {h} && x >= h - r.keep + 1 :: if x == h then Previous(l, h) else l[x]
  }

  function AgentAt(l: Ledger, h: int, id: AgentId): Option<Agent> {
    if h in l && id in l[h] then Some(l[h][id]) else None
  }

  /** GetDealDivideRewardMap. */
  ghost function DealMap(r: Rules, l: Ledger, h: int, id: AgentId): Option<map<User, int>> {
    match AgentAt(l, h - 1, id)
    case None => Some(map[])
    case Some(a) => BonusMap(a, r.bonus(h))
  }

  /** The agents after the creations, resignations, transfers and the erasure of inactive users. */
  function Settle(m: AgentMap, b: Block, h: int, least: int): AgentMap {
    ClearInactive(MoveAll(ResignAll(CreateAll(m, b.creates), b.resigns), b.transfers, h), least)
  }

  datatype StageOf<M> = Ready(agents: M) | Stop(outcome: Outcome)

  /** The agents once the block's bonus is dealt and its rewards are recorded. */
  ghost function Rewarded(r: Rules, l: Ledger, h: nat, b: Block): StageOf<AgentMap>
    requires h in l
  {
    match b.staker
    case None => Ready(l[h])
    case Some(id) =>
      if id !in l[h] then Stop(Refused)
      else match DealMap(r, l, h, id)
        case None => Stop(Threw)
        case Some(m) => Ready(l[h][id := PayAll(Deals(l[h][id], m), b.rewards)])
  }

  /** AddMetaBlock. A block whose staking agent does not exist is refused after its height has been
      initialized. */
  ghost function AddBlock(r: Rules, l: Ledger, h: nat, b: Block): (Ledger, Outcome)
    requires RulesOk(r)
  {
    if h in l then (l, Refused)
    else
      var l1 := InitHeight(r, l, h);
      match Rewarded(r, l1, h, b)
      case Stop(outcome) => (l1, outcome)
      case Ready(m) => (l1[h := Settle(m, b, h, r.minReward(h))], Done)
  }

  /** RevertToHeight: heights above are erased up to the first that is missing. */
  ghost function Revert(l: Ledger, h: int): Ledger {
    map x: nat | x in l && !(h < x && forall y :: h < y <= x ==> y in l) :: l[x]
  }

  // ---------- Rewards that may be paid ----------

  function StatAt(l: Ledger, h: int, id: AgentId, u: User): Option<Stat> {
    if h in l && id in l[h] && u in l[h][id].users then Some(l[h][id].users[u]) else None
  }

  /** One user's entry of GetExpectDivideRewardMap: what was dealt up to the base height and not
      paid up to the previous one, for users who joined no later than the base height. */
  function Expected(r: Rules, l: Ledger, h: int, id: AgentId, u: User): Option<int> {
    var base := h - BASE_OFFSET;
    if base < r.posStart then None
    else match StatAt(l, base, id, u)
      case None => None
      case Some(based) =>
        match StatAt(l, h - 1, id, u)
        case None => None
        case Some(prev) =>
          var reward := based.deal - prev.dividend;
          if base < prev.join || reward < r.minReward(h) then None else Some(reward)
  }

  /** Does CheckCoinStake look at the rewards of a block at height h? Not when that is switched off,
      not before proof of stake began, not for a block checked while the block before it was not
      the tip (it then takes the height to be -1), and not when the base height lies below every
      recorded height. */
  predicate Examined(r: Rules, l: Ledger, h: nat, onTip: bool) {
    r.checkRewards && onTip && h >= r.posStart && exists g :: g in l && g <= h - BASE_OFFSET
  }

  /** The loop of CheckCoinStake: each reward output on its own. */
  predicate EachExpected(r: Rules, l: Ledger, h: int, id: AgentId, rewards: seq<Reward>) {
    forall p :: p in rewards ==> Expected(r, l, h, id, p.user).Some? && p.amount <= Expected(r, l, h, id, p.user).value
  }

  /** The reward test of CheckCoinStake. */
  predicate Accepted(r: Rules, l: Ledger, h: nat, onTip: bool, id: AgentId, rewards: seq<Reward>) {
    Examined(r, l, h, onTip) ==> AgentAt(l, h - 1, id).Some? && EachExpected(r, l, h, id, rewards)
  }

  /** No user is paid twice in a block, which that test does not look at. */
  predicate PaidOnce(rewards: seq<Reward>) {
    forall i, j :: 0 <= i < j < |rewards| ==> rewards[i].user != rewards[j].user
  }
}
