/** When the rewards of a block are looked at: the recorded heights over a run, and what happens outside them. */
module EntrustWindow {
  import opened Basics
  import opened EntrustBonus
  import opened Entrustment
  import opened EntrustRuns

  // ---------- The heights recorded ----------

  /** The heights from low to next - 1; none when the two are equal. */
  datatype Span = Span(low: nat, next: nat)

  ghost predicate Records(l: Ledger, s: Span) {
    forall g: nat :: g in l <==> s.low <= g < s.next
  }

  /** Blocks follow one another; on an empty ledger any height may come. */
  predicate InSequence(s: Span, op: Op) {
    op.Connect? ==> s.low >= s.next || op.h == s.next
  }

  function Max(a: int, b: int): int {
    if a < b then b else a
  }

  function Moved(r: Rules, s: Span, op: Op): Span {
    match op
    case Connect(h, _, _) => Span(Max(if s.low >= s.next then h else s.low, h - r.keep + 1), h + 1)
    case Disconnect(to) => if s.low <= to + 1 < s.next then Span(s.low, to + 1) else s
  }

  /** Connecting and disconnecting move the recorded heights as computed. */
  lemma MovedRecords(r: Rules, l: Ledger, s: Span, op: Op)
    requires RulesOk(r) && Records(l, s) && InSequence(s, op)
    ensures Records(Apply(r, l, op), Moved(r, s, op))
  {
    hide Rewarded, Settle;
    match op
    case Connect(h, onTip, b) =>
      assert h !in l;
      assert Apply(r, l, op).Keys == InitHeight(r, l, h).Keys;
    case Disconnect(to) =>
      RevertSpan(l, s, to);
  }

  lemma RevertSpan(l: Ledger, s: Span, to: int)
    requires Records(l, s)
    ensures Records(Revert(l, to), if s.low <= to + 1 < s.next then Span(s.low, to + 1) else s)
  {
    if s.low < s.next && to + 1 < s.low {
      forall x: nat | x in l ensures x in Revert(l, to) {
        assert to + 1 !in l && to < to + 1 <= x;
      }
    }
  }

  /** A block is looked at exactly when rewards are checked, it was checked on the tip, proof of stake
      has begun, and 60 heights below it is still recorded. */
  predicate InWindow(r: Rules, s: Span, h: nat, onTip: bool) {
    r.checkRewards && onTip && h >= r.posStart && s.low < s.next && s.low <= h - BASE_OFFSET
  }

  lemma WindowExact(r: Rules, l: Ledger, s: Span, h: nat, onTip: bool)
    requires Records(l, s)
    ensures Examined(r, l, h, onTip) <==> InWindow(r, s, h, onTip)
  {
    if s.low < s.next {
      assert s.low in l;
    }
  }

  // ---------- Runs ----------

  /** What can be told from the operations alone: blocks follow one another, and those that pay
      rewards are in the window. */
  predicate Guarded(r: Rules, s: Span, ops: seq<Op>)
    decreases |ops|
  {
    ops != [] ==>
      && InSequence(s, ops[0])
      && (ops[0].Connect? && ops[0].b.staker.Some? && ops[0].b.rewards != [] ==> InWindow(r, s, ops[0].h, ops[0].onTip))
      && Guarded(r, Moved(r, s, ops[0]), ops[1..])
  }

  lemma {:induction false} GuardedWatched(r: Rules, l: Ledger, s: Span, ops: seq<Op>)
    requires RulesOk(r) && Records(l, s) && Guarded(r, s, ops)
    ensures AllWatched(r, l, ops)
    decreases |ops|
  {
    hide Records, Moved, InWindow, Examined, Apply;
    if ops != [] {
      if ops[0].Connect? {
        WindowExact(r, l, s, ops[0].h, ops[0].onTip);
      }
      MovedRecords(r, l, s, ops[0]);
      GuardedWatched(r, Apply(r, l, ops[0]), Moved(r, s, ops[0]), ops[1..]);
    }
  }

  /** A run whose paying blocks are in the window never pays anybody more than was dealt to them, and
      keeps every agent's total exact. */
  lemma GuardedNeverOverpays(r: Rules, ops: seq<Op>)
    requires RulesOk(r) && Positive(r) && IsRun(r, map[], ops) && Guarded(r, Span(0, 0), ops)
    ensures var l := Run(r, map[], ops);
      && (forall h, id, u :: StatAt(l, h, id, u).Some? ==> StatAt(l, h, id, u).value.dividend <= StatAt(l, h, id, u).value.deal)
      && (forall h, id :: AgentAt(l, h, id).Some? ==> Balanced(AgentAt(l, h, id).value))
  {
    GuardedWatched(r, map[], Span(0, 0), ops);
    RunNeverOverpays(r, ops);
  }

  /** Blocks connected one after another from the height first on, each on the tip; those that pay
      come after proof of stake began and 60 heights or more after the first. */
  predicate Straight(r: Rules, first: nat, ops: seq<Op>) {
    forall k :: 0 <= k < |ops| ==>
      && ops[k].Connect? && ops[k].h == first + k && ops[k].onTip
      && (ops[k].b.staker.Some? && ops[k].b.rewards != [] ==> ops[k].h >= r.posStart && ops[k].h - BASE_OFFSET >= first)
  }

  /** With at least 60 heights kept and no block disconnected that is enough. */
  lemma StraightNeverOverpays(r: Rules, first: nat, ops: seq<Op>)
    requires RulesOk(r) && Positive(r) && r.checkRewards && r.keep >= BASE_OFFSET
    requires IsRun(r, map[], ops) && Straight(r, first, ops)
    ensures var l := Run(r, map[], ops);
      && (forall h, id, u :: StatAt(l, h, id, u).Some? ==> StatAt(l, h, id, u).value.dividend <= StatAt(l, h, id, u).value.deal)
      && (forall h, id :: AgentAt(l, h, id).Some? ==> Balanced(AgentAt(l, h, id).value))
  {
    StraightGuarded(r, first, ops, 0, Span(0, 0));
    assert ops[0..] == ops;
    GuardedNeverOverpays(r, ops);
  }

  lemma {:induction false} StraightGuarded(r: Rules, first: nat, ops: seq<Op>, k: nat, s: Span)
    requires RulesOk(r) && r.checkRewards && r.keep >= BASE_OFFSET && Straight(r, first, ops) && k <= |ops|
    requires if k == 0 then s == Span(0, 0) else s == Span(Max(first, first + k - r.keep), first + k)
    ensures Guarded(r, s, ops[k..])
    decreases |ops| - k
  {
    if k < |ops| {
      assert ops[k..][0] == ops[k] && ops[k..][1..] == ops[k + 1..];
      StraightGuarded(r, first, ops, k + 1, Moved(r, s, ops[k]));
    }
  }

  // ---------- Outside the window ----------

  /** With fewer than 60 heights kept no block that follows another is ever looked at. */
  lemma ShortWindow(r: Rules, l: Ledger, s: Span, op: Op, onTip: bool)
    requires RulesOk(r) && Records(l, s) && op.Connect? && InSequence(s, op)
    ensures r.keep < BASE_OFFSET ==> !Examined(r, Apply(r, l, op), op.h + 1, onTip)
  {
    hide Apply;
    MovedRecords(r, l, s, op);
    WindowExact(r, Apply(r, l, op), Moved(r, s, op), op.h + 1, onTip);
  }

  /** After d of the blocks of a full window have been disconnected, the next block on the tip is
      looked at exactly when d is at most the number of heights kept less 60. */
  lemma ReorganizedWindow(r: Rules, l: Ledger, s: Span, d: nat)
    requires RulesOk(r) && Records(l, s) && s.next == s.low + r.keep && 0 < d < r.keep
    requires r.checkRewards && s.next - d >= r.posStart
    ensures Examined(r, Revert(l, s.next - d - 1), s.next - d, true) <==> d <= r.keep - BASE_OFFSET
  {
    RevertSpan(l, s, s.next - d - 1);
    WindowExact(r, Revert(l, s.next - d - 1), Span(s.low, s.next - d), s.next - d, true);
  }

  /** The block that pays one user one reward. */
  function OnePayment(id: AgentId, u: User, amount: int): Block {
    Block(Some(id), [Reward(u, amount)], [], [], [])
  }

  /** A user of the staking agent who holds something: there, with a positive holding. */
  predicate Holds(l: Ledger, h: nat, id: AgentId, u: User) {
    id in Previous(l, h) && u in Previous(l, h)[id].users && Previous(l, h)[id].users[u].entrust > 0
  }

  lemma OnePaid(a: Agent, m: map<User, int>, u: User, amount: int)
    requires u in a.users
    ensures var dealt, paid := Deals(a, m), PayAll(Deals(a, m), [Reward(u, amount)]);
      && u in paid.users && paid.users[u] == StatOf(dealt, u).(dividend := a.users[u].dividend + amount)
      && paid.users[u].entrust == a.users[u].entrust
  {
    var rewards := [Reward(u, amount)];
    assert rewards[..0] == [];
    assert PayAll(Deals(a, m), rewards[..0]) == Deals(a, m);
  }

  /** The user's figures after such a block: the bonus dealt, and the reward recorded. */
  lemma PaidStat(r: Rules, l: Ledger, h: nat, id: AgentId, u: User, amount: int, m: map<User, int>)
    requires RulesOk(r) && h !in l && Holds(l, h, id, u)
    requires DealMap(r, InitHeight(r, l, h), h, id) == Some(m)
    ensures StatAt(AddBlock(r, l, h, OnePayment(id, u, amount)).0, h, id, u)
         == Some(StatOf(Deals(Previous(l, h)[id], m), u).(dividend := Previous(l, h)[id].users[u].dividend + amount))
  {
    hide DealMap, InitHeight, Previous, Deals, PayAll, StatOf;
    var b, start := OnePayment(id, u, amount), Previous(l, h);
    InitHeightShape(r, l, h);
    var a := PayAll(Deals(start[id], m), b.rewards);
    OnePaid(start[id], m, u, amount);
    assert Settle(start[id := a], b, h, r.minReward(h)) == ClearInactive(start[id := a], r.minReward(h));
  }

  /** When a block is not looked at, a user who holds something can be paid more than was dealt. */
  lemma UnwatchedOverpays(r: Rules, l: Ledger, h: nat, onTip: bool, id: AgentId, u: User) returns (b: Block)
    requires RulesOk(r) && Positive(r) && Inv(l) && (forall g :: g in l ==> g < h) && Holds(l, h, id, u)
    requires !Examined(r, l, h, onTip)
    ensures b.staker == Some(id) && Allowed(r, l, h, onTip, b)
    ensures var s := StatAt(AddBlock(r, l, h, b).0, h, id, u); s.Some? && s.value.dividend > s.value.deal
  {
    hide Inv, Examined, InitHeight, DealMap, Balanced, Rewarded;
    var start, l1 := Previous(l, h), InitHeight(r, l, h);
    InitHeightShape(r, l, h);
    PreviousOk(l, h);
    DealMapOk(r, l1, h, id, start);
    var m := DealMap(r, l1, h, id).value;
    var dealt := StatOf(Deals(start[id], m), u);
    var amount := dealt.deal - start[id].users[u].dividend + 1;
    b := OnePayment(id, u, amount);
    PaidStat(r, l, h, id, u, amount, m);
  }

  /** Every block an agent with a holder may stake keeps the ledger sound exactly when blocks at
      that height are looked at. */
  lemma SoundExactly(r: Rules, l: Ledger, h: nat, onTip: bool, id: AgentId, u: User)
    requires RulesOk(r) && Positive(r) && Inv(l) && (forall g :: g in l ==> g < h) && Holds(l, h, id, u)
    ensures Examined(r, l, h, onTip) <==>
      forall b: Block :: b.staker == Some(id) && Allowed(r, l, h, onTip, b) ==> Inv(AddBlock(r, l, h, b).0)
  {
    hide Examined, AddBlock, Allowed;
    if Examined(r, l, h, onTip) {
      hide Inv;
      forall b: Block | b.staker == Some(id) && Allowed(r, l, h, onTip, b) ensures Inv(AddBlock(r, l, h, b).0) {
        AddKeeps(r, l, h, onTip, b);
      }
    } else {
      var b := UnwatchedOverpays(r, l, h, onTip, id, u);
      assert StatAt(AddBlock(r, l, h, b).0, h, id, u).Some?;
    }
  }
}
