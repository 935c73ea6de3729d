/** One agent's entrusted amounts and the split of a block's bonus: src/entrustment.cpp, src/crp/CoinReleasePlan.cpp. */
module EntrustBonus {
  import opened Basics

  /** Addresses are ordered, as the keys of the source's maps are. */
  datatype User = User(address: nat)

  datatype Stat = Stat(join: int, entrust: int, deal: int, dividend: int)

  /** total is receivedTotalAmount. */
  datatype AgentOf<U> = Agent(total: int, users: U)
  type Agent = AgentOf<map<User, Stat>>

  /** A user's figures; a missing entry is created with zeros when it is written. */
  function StatOf(a: Agent, u: User): Stat {
    if u in a.users then a.users[u] else Stat(0, 0, 0, 0)
  }

  function SetStat(a: Agent, u: User, s: Stat): Agent {
    a.(users := a.users[u := s])
  }

  // ---------- Sums over sets of users ----------

  ghost function Sum(f: User -> int, keys: set<User>): int {
    if keys == {} then 0 else var u :| u in keys; f(u) + Sum(f, keys - {u})
  }

  lemma {:induction false} SumSplit(f: User -> int, keys: set<User>, u: User)
    requires u in keys
    ensures Sum(f, keys) == f(u) + Sum(f, keys - {u})
  {
    var v :| v in keys && Sum(f, keys) == f(v) + Sum(f, keys - {v});
    if u != v {
      SumSplit(f, keys - {v}, u);
      SumSplit(f, keys - {u}, v);
      assert keys - {v} - {u} == keys - {u} - {v};
    }
  }

  lemma {:induction false} SumSame(f: User -> int, g: User -> int, keys: set<User>)
    requires forall u :: u in keys ==> f(u) == g(u)
    ensures Sum(f, keys) == Sum(g, keys)
  {
    if keys != {} {
      var u :| u in keys;
      SumSplit(f, keys, u);
      SumSplit(g, keys, u);
      SumSame(f, g, keys - {u});
    }
  }

  /** Users whose figure is zero do not matter. */
  lemma {:induction false} SumZeros(f: User -> int, keys: set<User>, less: set<User>)
    requires less <= keys && forall u :: u in keys - less ==> f(u) == 0
    ensures Sum(f, keys) == Sum(f, less)
    decreases |keys|
  {
    if less != keys {
      assert !(keys <= less);
      var u :| u in keys && u !in less;
      SumSplit(f, keys, u);
      SumZeros(f, keys - {u}, less);
    }
  }

  lemma {:induction false} SumBelow(f: User -> int, keys: set<User>, u: User)
    requires u in keys && forall v :: v in keys ==> f(v) >= 0
    ensures f(u) <= Sum(f, keys)
  {
    SumSplit(f, keys, u);
    SumNonNegative(f, keys - {u});
  }

  lemma {:induction false} SumNonNegative(f: User -> int, keys: set<User>)
    requires forall v :: v in keys ==> f(v) >= 0
    ensures Sum(f, keys) >= 0
  {
    if keys != {} {
      var u :| u in keys;
      SumSplit(f, keys, u);
      SumNonNegative(f, keys - {u});
    }
  }

  // ---------- The bonus ----------

  /** WeightAmount where the source does not throw: bonus * weight / total, rounded down. */
  predicate WeightOk(bonus: int, weight: int, total: int) {
    bonus >= 0 && 0 <= weight <= total && total > 0
  }

  function Weight(bonus: int, weight: int, total: int): int
    requires WeightOk(bonus, weight, total)
  {
    bonus * weight / total
  }

  function Entrusted(a: Agent): set<User> {
    set u | u in a.users && a.users[u].entrust > 0
  }

  function Share(a: Agent, bonus: int, u: User): int {
    var w := StatOf(a, u).entrust;
    if WeightOk(bonus, w, a.total) then Weight(bonus, w, a.total) else 0
  }

  /** The first key of a non-empty map. */
  function First(keys: set<User>): (u: User)
    requires keys != {}
    ensures u in keys && forall v :: v in keys ==> u.address <= v.address
  {
    FirstExists(keys);
    var u :| u in keys && forall v :: v in keys ==> u.address <= v.address;
    u
  }

  lemma {:induction false} FirstExists(keys: set<User>)
    requires keys != {}
    ensures exists u :: u in keys && forall v :: v in keys ==> u.address <= v.address
  {
    var u :| u in keys;
    if keys != {u} {
      assert u in keys && keys - {u} != {};
      FirstExists(keys - {u});
      var m :| m in keys - {u} && forall v :: v in keys - {u} ==> m.address <= v.address;
      var least := if u.address <= m.address then u else m;
      assert forall v :: v in keys ==> v == u || v in keys - {u};
      assert least in keys && forall v :: v in keys ==> least.address <= v.address;
    }
  }

  /** GetBonusMap for an agent that exists; None where the source throws. */
  ghost function BonusMap(a: Agent, bonus: int): Option<map<User, int>> {
    var us := Entrusted(a);
    if a.total < 0 then None
    else if a.total == 0 then Some(map[])
    else if exists u :: u in us && !WeightOk(bonus, a.users[u].entrust, a.total) then None
    else
      var shares := map u | u in us :: Share(a, bonus, u);
      var given := Sum(u => Share(a, bonus, u), us);
      if given < bonus && us != {} then Some(shares[First(us) := Share(a, bonus, First(us)) + bonus - given]) else Some(shares)
  }

  /** The agent's total is what its users have entrusted, and nobody entrusted a negative amount. */
  ghost predicate Balanced(a: Agent) {
    && (forall u :: u in a.users ==> a.users[u].entrust >= 0)
    && a.total == Sum(u => StatOf(a, u).entrust, a.users.Keys)
  }

  /** Rounded-down shares of weights that add up to part of the total: their sum is at most the
      exact part, and falls short of it by less than one for each user. */
  lemma {:induction false} SharesBound(a: Agent, bonus: int, us: set<User>)
    requires bonus >= 0 && a.total > 0
    requires forall u :: u in us ==> 0 <= StatOf(a, u).entrust <= a.total
    ensures var given, weight := Sum(u => Share(a, bonus, u), us), Sum(u => StatOf(a, u).entrust, us);
      given * a.total <= bonus * weight <= (given + |us|) * a.total
      && (us != {} ==> bonus * weight < (given + |us|) * a.total)
  {
    var f, g := (u: User) => Share(a, bonus, u), (u: User) => StatOf(a, u).entrust;
    if us != {} {
      var u :| u in us;
      SumSplit(f, us, u);
      SumSplit(g, us, u);
      SharesBound(a, bonus, us - {u});
      SharesStep(bonus, g(u), a.total, f(u), Sum(g, us - {u}), Sum(f, us - {u}), |us| - 1);
    }
  }

  lemma SharesStep(bonus: int, w: int, total: int, share: int, weight: int, given: int, n: nat)
    requires WeightOk(bonus, w, total) && share == Weight(bonus, w, total)
    requires given * total <= bonus * weight <= (given + n) * total
    ensures (given + share) * total <= bonus * (weight + w) < (given + share + n + 1) * total
  {
    var x := bonus * w;
    Quotient(x, total);
    assert share * total <= x < (share + 1) * total;
    assert bonus * (weight + w) == bonus * weight + x;
    assert (given + share) * total == given * total + share * total;
    assert (given + share + n + 1) * total == (given + n) * total + (share + 1) * total;
  }

  ghost function Paid(m: map<User, int>, u: User): int {
    if u in m then m[u] else 0
  }

  lemma BalancedWeights(a: Agent)
    requires Balanced(a)
    ensures Sum(u => StatOf(a, u).entrust, Entrusted(a)) == a.total
    ensures forall u :: u in a.users ==> 0 <= StatOf(a, u).entrust <= a.total
    ensures Entrusted(a) == {} <==> a.total == 0
  {
    var f := (u: User) => StatOf(a, u).entrust;
    SumSame(f, u => StatOf(a, u).entrust, a.users.Keys);
    SumZeros(f, a.users.Keys, Entrusted(a));
    SumSame(f, u => StatOf(a, u).entrust, Entrusted(a));
    forall u | u in a.users ensures 0 <= StatOf(a, u).entrust <= a.total {
      SumBelow(f, a.users.Keys, u);
    }
    if Entrusted(a) != {} {
      var u :| u in Entrusted(a);
      assert u in a.users;
    }
  }

  /** A balanced agent's bonus map never throws. With something entrusted it hands out exactly the
      block bonus, to the users who entrusted something and to nobody else: to each the
      rounded-down share, and the remainder, less than one unit for each of them, to the first. */
  lemma BonusExact(a: Agent, bonus: int)
    requires Balanced(a) && bonus >= 0
    ensures BonusMap(a, bonus).Some?
    ensures a.total == 0 ==> BonusMap(a, bonus).value == map[]
    ensures a.total > 0 ==>
      var m := BonusMap(a, bonus).value;
      && m.Keys == Entrusted(a) && m.Keys != {}
      && Sum(u => Paid(m, u), m.Keys) == bonus
      && (forall u :: u in m ==> m[u] >= Share(a, bonus, u) >= 0)
      && (forall u :: u in m && u != First(m.Keys) ==> m[u] == Share(a, bonus, u))
      && m[First(m.Keys)] - Share(a, bonus, First(m.Keys)) < |m.Keys|
  {
    BalancedWeights(a);
    var us := Entrusted(a);
    forall u | u in us ensures WeightOk(bonus, a.users[u].entrust, a.total) && Share(a, bonus, u) >= 0 {
      assert u in a.users && StatOf(a, u).entrust == a.users[u].entrust;
      ShareNonNegative(a, bonus, u);
    }
    if a.total > 0 {
      BonusSum(a, bonus);
    }
  }

  lemma ShareNonNegative(a: Agent, bonus: int, u: User)
    ensures Share(a, bonus, u) >= 0
  {
    var w := StatOf(a, u).entrust;
    if WeightOk(bonus, w, a.total) {
      Quotient(bonus * w, a.total);
      ProductSign(bonus, w);
      if bonus * w / a.total < 0 {
        ProductSign(-(bonus * w / a.total + 1), a.total);
      }
    }
  }

  lemma BonusSum(a: Agent, bonus: int)
    requires Balanced(a) && bonus >= 0 && a.total > 0 && Entrusted(a) != {}
    requires forall u :: u in Entrusted(a) ==> WeightOk(bonus, a.users[u].entrust, a.total)
    ensures var us, m := Entrusted(a), BonusMap(a, bonus).value;
      && BonusMap(a, bonus).Some? && m.Keys == us
      && Sum(u => Paid(m, u), us) == bonus
      && (forall u :: u in us && u != First(us) ==> m[u] == Share(a, bonus, u))
      && 0 <= m[First(us)] - Share(a, bonus, First(us)) < |us|
  {
    var us, m := Entrusted(a), BonusMap(a, bonus).value;
    var share, paid := (u: User) => Share(a, bonus, u), (u: User) => Paid(m, u);
    var given := Sum(share, us);
    assert BonusMap(a, bonus).Some? && m.Keys == us;
    BalancedWeights(a);
    SumSame(u => StatOf(a, u).entrust, (u: User) => StatOf(a, u).entrust, us);
    SumSame(share, u => Share(a, bonus, u), us);
    SharesBound(a, bonus, us);
    GivenBound(given, bonus, a.total, |us|);
    var u := First(us);
    SumSplit(share, us, u);
    SumSplit(paid, us, u);
    SumSame(share, paid, us - {u});
    SumSame(paid, u => Paid(m, u), us);
  }

  lemma GivenBound(given: int, bonus: int, total: int, n: nat)
    requires total > 0 && given * total <= bonus * total < (given + n) * total
    ensures given <= bonus < given + n
  {
  }
}
