/** Choice of zerocoin mints, src/denomination_functions.cpp; counts are listed from the smallest coin up. */
module DenominationFunctions {
  import opened Basics
  import opened CoinChain

  const COIN: nat := 100_000_000
  const N: nat := 8

  /** zerocoinDenomList. */
  function Face(i: nat): (d: nat)
    ensures d > 0
  {
    if i == 0 then 1 else if i == 1 then 5 else if i == 2 then 10 else if i == 3 then 50
    else if i == 4 then 100 else if i == 5 then 500 else if i == 6 then 1000 else 5000
  }

  /** ZerocoinDenominationToAmount of every denomination. */
  function Amounts(): (s: seq<nat>)
    ensures |s| == N && forall i :: 0 <= i < N ==> s[i] == Face(i) * COIN && s[i] > 0
  {
    seq(N, i requires 0 <= i < N => Face(i) * COIN)
  }

  lemma FaceValues()
    ensures Amounts() == [COIN, 5 * COIN, 10 * COIN, 50 * COIN, 100 * COIN, 500 * COIN, 1000 * COIN, 5000 * COIN]
  {
  }

  type Counts = c: seq<nat> | |c| == N witness [0, 0, 0, 0, 0, 0, 0, 0]

  function NoCoins(): Counts {
    seq(N, i => 0)
  }

  /** A coin in the wallet; `denomination` is its face value (0 stands for ZQ_ERROR). */
  datatype Mint = Mint(id: nat, denomination: nat, used: bool)

  lemma AmountsAreChain()
    ensures IsChain(Amounts())
  {
    hide Face;
    forall i | 0 < i < N ensures Amounts()[i] % Amounts()[i - 1] == 0 {
      FaceDivides(i);
      var k := Face(i) / Face(i - 1);
      assert Face(i) * COIN == (Face(i - 1) * COIN) * k;
      MultipleMod(Face(i - 1) * COIN, k);
    }
  }

  lemma FaceDivides(i: nat)
    requires 0 < i < N
    ensures Face(i) == Face(i - 1) * (Face(i) / Face(i - 1))
  {
  }

  /** The value of a selection. */
  function Total(c: Counts): nat {
    Worth(Amounts(), c, N)
  }

  /** getNumberOfCoinsUsed. */
  method GetNumberOfCoinsUsed(c: Counts) returns (n: nat)
    ensures n == Coins(c, N)
  {
    n := 0;
    for i := 0 to N
      invariant n == Coins(c, i)
    {
      n := n + c[i];
    }
  }

  /** The greedy selection of the whole denomination list. */
  function GreedyCounts(supply: Counts, target: int): (c: Counts) {
    Greedy(Amounts(), supply, N, target)
  }

  /** A supply that no selection worth at most `target` can exhaust. */
  function Plenty(target: int): (c: Counts) {
    var t: nat := if target > 0 then target else 0;
    seq(N, i => t)
  }

  /** The change for an amount: greedy with unlimited supply. */
  function ChangeFor(amount: int): Counts {
    GreedyCounts(Plenty(amount), amount)
  }

  /** The number of coins in the change for an amount. */
  function ChangeCoins(amount: int): nat {
    Coins(ChangeFor(amount), N)
  }

  ghost predicate Reachable(supply: Counts, target: int) {
    exists c: Counts :: Within(c, supply, N) && Total(c) == target
  }

  /** The greedy selection meets the target exactly iff some selection within the supply does,
      and then no exact selection has fewer coins. */
  lemma GreedyReaches(supply: Counts, target: int)
    ensures Reachable(supply, target) <==> Total(GreedyCounts(supply, target)) == target
    ensures forall c: Counts :: Within(c, supply, N) && Total(c) == target ==> Coins(GreedyCounts(supply, target), N) <= Coins(c, N)
  {
    AmountsAreChain();
    forall c: Counts | Within(c, supply, N) && Total(c) == target
      ensures Total(GreedyCounts(supply, target)) == target
      ensures Coins(GreedyCounts(supply, target), N) <= Coins(c, N)
    {
      GreedyExactAndMinimal(Amounts(), supply, c, N, target);
    }
  }

  /** What a greedy loop has done to a counter once it cannot go on is what Take says. */
  lemma LoopTakes(value: nat, available: nat, start: int, taken: nat)
    requires value > 0
    requires taken <= available && (taken > 0 ==> taken * value <= start)
    requires start - taken * value < value || taken == available
    ensures taken == Take(value, available, start)
  {
    if start >= 0 {
      if taken > 0 { } else { assert taken * value == 0; }
      TakeUnique(value, available, start, taken);
    } else if taken > 0 {
      TimesMonotone(0, taken, value);
      assert false;
    }
  }

  /** The inner loop of getSpendCoins: grabs coins of one value while they fit and are held. */
  method GrabHeld(value: nat, held: nat, target: int) returns (taken: nat, remaining: int)
    requires value > 0
    ensures taken == Take(value, held, target) && remaining == target - taken * value
  {
    taken, remaining := 0, target;
    while remaining >= value && taken < held
      invariant remaining == target - taken * value
      invariant taken <= held && (taken > 0 ==> taken * value <= target)
      decreases held - taken
    {
      TimesPlus(taken, 1, value);
      taken, remaining := taken + 1, remaining - value;
    }
    LoopTakes(value, held, target, taken);
  }

  /** The inner loop of getChange: grabs coins of one value while they fit. */
  method GrabAny(value: nat, ghost plenty: nat, target: int) returns (taken: nat, remaining: int)
    requires value > 0 && target <= plenty
    ensures taken == Take(value, plenty, target) && remaining == target - taken * value
  {
    taken, remaining := 0, target;
    while remaining >= value
      invariant remaining == target - taken * value
      invariant taken > 0 ==> taken * value <= target
      decreases remaining
    {
      TimesPlus(taken, 1, value);
      taken, remaining := taken + 1, remaining - value;
    }
    if taken > 0 {
      TimesMonotone(1, value, taken);
    }
    LoopTakes(value, plenty, target, taken);
  }

  /** getSpendCoins: the greedy selection within the coins held. */
  method GetSpendCoins(target: int, held: Counts) returns (used: Counts)
    ensures used == GreedyCounts(held, target)
  {
    hide Paused, Greedy, Face;
    var values := Amounts();
    PausedStart(values, held, target);
    var picked, remaining: int, i: nat := [], target, N;
    while i > 0
      invariant i <= N && Paused(values, held, target, i, remaining, picked)
    {
      PausedStep(values, held, target, i, remaining, picked);
      i := i - 1;
      var taken;
      taken, remaining := GrabHeld(values[i], held[i], remaining);
      picked := [taken] + picked;
    }
    PausedEnd(values, held, target, remaining, picked);
    used := picked;
  }

  /** getChange: the greedy selection with no limit on the coins. */
  method GetChange(target: int) returns (change: Counts)
    ensures change == ChangeFor(target)
  {
    var values := Amounts();
    ghost var held := Plenty(target);
    hide Paused, Greedy, Face;
    PausedStart(values, held, target);
    var picked, remaining: int, i: nat := [], target, N;
    while i > 0
      invariant i <= N && remaining <= target && Paused(values, held, target, i, remaining, picked)
    {
      PausedStep(values, held, target, i, remaining, picked);
      i := i - 1;
      var taken;
      taken, remaining := GrabAny(values[i], held[i], remaining);
      TimesMonotone(0, taken, values[i]);
      picked := [taken] + picked;
    }
    PausedEnd(values, held, target, remaining, picked);
    change := picked;
  }

  /** getChange breaks a whole number of coins exactly, with as few coins as any selection can. */
  lemma ChangeIsMinimal(amount: nat, other: Counts)
    requires amount % COIN == 0
    ensures Total(ChangeFor(amount)) == amount
    ensures Total(other) == amount ==> ChangeCoins(amount) <= Coins(other, N)
  {
    AmountsAreChain();
    var ones: Counts := NoCoins()[0 := amount / COIN];
    PrefixZero(ones, N);
    assert amount == amount / COIN * COIN by { DivMod(amount, COIN); }
    assert amount / COIN <= amount by { TimesMonotone(1, COIN, amount / COIN); }
    assert Within(ones, Plenty(amount), N);
    GreedyReaches(Plenty(amount), amount);
    if Total(other) == amount {
      forall i | 0 <= i < N ensures other[i] <= amount {
        CountBelowWorth(other, N, i);
      }
      assert Within(other, Plenty(amount), N);
    }
  }

  lemma {:induction false} PrefixZero(c: Counts, n: nat)
    requires 0 < n <= N && forall i :: 0 < i < N ==> c[i] == 0
    ensures Worth(Amounts(), c, n) == c[0] * COIN
  {
    AmountsAreChain();
    if n > 1 {
      PrefixZero(c, n - 1);
    } else {
      assert Worth(Amounts(), c, 0) == 0;
    }
  }

  lemma {:induction false} CountBelowWorth(c: Counts, n: nat, i: nat)
    requires i < n <= N
    ensures c[i] <= Worth(Amounts(), c, n)
  {
    AmountsAreChain();
    TimesMonotone(1, Amounts()[n - 1], c[n - 1]);
    if i < n - 1 {
      CountBelowWorth(c, n - 1, i);
    }
  }

  // ---------- Mints ----------

  /** How many of the first k mints are unused coins of denomination d. */
  function Unused(mints: seq<Mint>, d: nat, k: nat): (n: nat)
    requires k <= |mints|
    ensures n <= k
  {
    if k == 0 then 0
    else Unused(mints, d, k - 1) + if !mints[k - 1].used && mints[k - 1].denomination == d then 1 else 0
  }

  /** The number of unused mints of each denomination: what the caller's mapOfDenomsHeld counts. */
  function Supply(mints: seq<Mint>): (c: Counts)
    ensures forall i :: 0 <= i < N ==> c[i] == Unused(mints, Face(i), |mints|)
  {
    seq(N, i requires 0 <= i < N => Unused(mints, Face(i), |mints|))
  }

  /** The value of a list of mints. */
  function AmountOf(mints: seq<Mint>): nat {
    if mints == [] then 0
    else AmountOf(mints[..|mints| - 1]) + mints[|mints| - 1].denomination * COIN
  }

  lemma {:induction false} AmountOfAppend(a: seq<Mint>, b: seq<Mint>, d: nat)
    requires forall m :: m in b ==> m.denomination == d
    ensures AmountOf(a + b) == AmountOf(a) + |b| * (d * COIN)
  {
    if b == [] {
      assert a + b == a;
    } else {
      var front := b[..|b| - 1];
      AmountOfAppend(a, front, d);
      assert (a + b)[..|a + b| - 1] == a + front;
      TimesPlus(|front|, 1, d * COIN);
      assert b[|b| - 1] in b;
    }
  }

  /** The inner loop of getIdealSpends: walks the list for one denomination. */
  method GrabFromList(mints: seq<Mint>, d: nat, value: nat, target: int) returns (taken: nat, remaining: int)
    requires value > 0
    ensures taken == Take(value, Unused(mints, d, |mints|), target)
    ensures remaining == target - taken * value
  {
    taken, remaining := 0, target;
    var k := 0;
    while k < |mints|
      invariant 0 <= k <= |mints|
      invariant taken == Unused(mints, d, k)
      invariant remaining == target - taken * value
      invariant taken > 0 ==> taken * value <= target
    {
      k := k + 1;
      if mints[k - 1].used { continue; }
      if remaining >= value && d == mints[k - 1].denomination {
        TimesPlus(taken, 1, value);
        taken, remaining := taken + 1, remaining - value;
      }
      if remaining < value { break; }
    }
    UnusedMonotone(mints, d, k, |mints|);
    LoopTakes(value, Unused(mints, d, |mints|), target, taken);
  }

  lemma {:induction false} UnusedMonotone(mints: seq<Mint>, d: nat, k: nat, l: nat)
    requires k <= l <= |mints|
    ensures Unused(mints, d, k) <= Unused(mints, d, l)
  {
    if k < l {
      UnusedMonotone(mints, d, k, l - 1);
    }
  }

  /** getIdealSpends: can unused mints meet the target exactly, and with how many of each denomination?
      The answer is yes iff any selection of unused mints is worth the target. */
  method GetIdealSpends(target: int, mints: seq<Mint>) returns (ok: bool, used: Counts)
    ensures used == GreedyCounts(Supply(mints), target)
    ensures ok <==> Total(used) == target
    ensures ok <==> Reachable(Supply(mints), target)
  {
    var values := Amounts();
    ghost var held := Supply(mints);
    hide Paused, Greedy, Face, Take;
    PausedStart(values, held, target);
    var picked, remaining: int, i: nat := [], target, N;
    while i > 0
      invariant i <= N && Paused(values, held, target, i, remaining, picked)
    {
      PausedStep(values, held, target, i, remaining, picked);
      i := i - 1;
      var taken;
      assert held[i] == Unused(mints, Face(i), |mints|);
      taken, remaining := GrabFromList(mints, Face(i), values[i], remaining);
      picked := [taken] + picked;
    }
    PausedEnd(values, held, target, remaining, picked);
    GreedyReaches(held, target);
    ok, used := remaining == 0, picked;
  }

  /** One pass of getSpends over the list for one denomination: picks up to `want` unused mints of it. */
  method PickPass(mints: seq<Mint>, d: nat, want: nat) returns (picked: seq<Mint>, left: nat)
    ensures multiset(picked) <= multiset(mints)
    ensures forall m :: m in picked ==> !m.used && m.denomination == d
    ensures |picked| + left == want
    ensures left == 0 || |picked| == Unused(mints, d, |mints|)
  {
    picked, left := [], want;
    for k := 0 to |mints|
      invariant multiset(picked) <= multiset(mints[..k])
      invariant forall m :: m in picked ==> !m.used && m.denomination == d
      invariant |picked| + left == want
      invariant left == 0 || |picked| == Unused(mints, d, k)
    {
      assert mints[..k + 1] == mints[..k] + [mints[k]];
      if mints[k].used { continue; }
      if d == mints[k].denomination && left > 0 {
        picked := picked + [mints[k]];
        left := left - 1;
      }
    }
    assert mints[..|mints|] == mints;
  }

  /** `picked` takes each mint no more often than it is listed, and only unused mints of the
      denominations from position i up. */
  ghost predicate FairPick(picked: seq<Mint>, mints: seq<Mint>, i: nat) {
    && multiset(picked) <= multiset(mints)
    && forall m :: m in picked ==> !m.used && exists j :: i <= j < N && Face(j) == m.denomination
  }

  lemma FairExtend(picked: seq<Mint>, more: seq<Mint>, mints: seq<Mint>, i: nat)
    requires i < N && FairPick(picked, mints, i + 1)
    requires multiset(more) <= multiset(mints)
    requires forall m :: m in more ==> !m.used && m.denomination == Face(i)
    ensures FairPick(picked + more, mints, i)
  {
    FacesAscend();
    forall m: Mint ensures multiset(picked + more)[m] <= multiset(mints)[m] {
      if m in more {
        assert m !in picked;
      }
      assert m in multiset(more) <==> m in more;
      assert m in multiset(picked) <==> m in picked;
    }
    forall m | m in picked + more ensures !m.used && exists j :: i <= j < N && Face(j) == m.denomination {
      if m in picked {
        var j :| i + 1 <= j < N && Face(j) == m.denomination;
        assert i <= j < N;
      } else {
        assert m in more && Face(i) == m.denomination;
      }
    }
  }

  lemma {:induction false} UnusedAppend(a: seq<Mint>, b: seq<Mint>, d: nat)
    ensures Unused(a + b, d, |a + b|) == Unused(a, d, |a|) + Unused(b, d, |b|)
  {
    if b == [] {
      assert a + b == a;
    } else {
      var front := b[..|b| - 1];
      UnusedAppend(a, front, d);
      UnusedPrefix(a + b, a + front, d, |a + front|);
      UnusedPrefix(b, front, d, |front|);
    }
  }

  lemma {:induction false} UnusedPrefix(a: seq<Mint>, b: seq<Mint>, d: nat, k: nat)
    requires k <= |a| && k <= |b| && a[..k] == b[..k]
    ensures Unused(a, d, k) == Unused(b, d, k)
  {
    if k > 0 {
      assert a[..k][k - 1] == b[..k][k - 1] && a[..k - 1] == a[..k][..k - 1] && b[..k - 1] == b[..k][..k - 1];
      UnusedPrefix(a, b, d, k - 1);
    }
  }

  lemma {:induction false} UnusedOfOne(b: seq<Mint>, f: nat, d: nat, k: nat)
    requires k <= |b| && forall m :: m in b ==> !m.used && m.denomination == f
    ensures Unused(b, d, k) == if d == f then k else 0
  {
    if k > 0 {
      assert b[k - 1] in b;
      UnusedOfOne(b, f, d, k - 1);
    }
  }

  /** Unused mints of one denomination add to the supply of that denomination only. */
  lemma SupplyAppend(a: seq<Mint>, b: seq<Mint>, i: nat)
    requires i < N && forall m :: m in b ==> !m.used && m.denomination == Face(i)
    ensures Supply(a + b) == Supply(a)[i := Supply(a)[i] + |b|]
  {
    hide Unused;
    FacesAscend();
    hide Face;
    forall j | 0 <= j < N ensures Supply(a + b)[j] == Supply(a)[i := Supply(a)[i] + |b|][j] {
      UnusedAppend(a, b, Face(j));
      UnusedOfOne(b, Face(i), Face(j), |b|);
    }
  }

  lemma FacesAscend()
    ensures forall i, j :: 0 <= i < j < N ==> Face(i) < Face(j)
  {
  }

  /** The passes of getSpends for one denomination: a do-while that needs a single pass
      because the unused mints suffice. */
  method SpendDenomination(mints: seq<Mint>, i: nat, wanted: nat, before: seq<Mint>, spentBefore: nat)
    returns (selected: seq<Mint>, spent: nat)
    requires i < N && wanted <= Unused(mints, Face(i), |mints|)
    requires FairPick(before, mints, i + 1) && spentBefore == AmountOf(before)
    ensures FairPick(selected, mints, i) && |selected| == |before| + wanted
    ensures Supply(selected) == Supply(before)[i := Supply(before)[i] + wanted]
    ensures spent == AmountOf(selected) == spentBefore + wanted * (Face(i) * COIN)
  {
    hide Supply, Face, AmountOf, FairPick, Unused;
    selected, spent := before, spentBefore;
    var left, again := wanted, true;
    while again
      invariant again ==> left == wanted && selected == before && spent == spentBefore
      invariant !again ==> FairPick(selected, mints, i) && |selected| == |before| + wanted
      invariant !again ==> Supply(selected) == Supply(before)[i := Supply(before)[i] + wanted]
      invariant !again ==> spent == AmountOf(selected) == spentBefore + wanted * (Face(i) * COIN)
      decreases again
    {
      var picked;
      picked, left := PickPass(mints, Face(i), left);
      AmountOfAppend(selected, picked, Face(i));
      FairExtend(selected, picked, mints, i);
      SupplyAppend(selected, picked, i);
      selected, spent := selected + picked, spent + |picked| * (Face(i) * COIN);
      again := left > 0;
    }
  }

  /** getSpends: turns a number of coins per denomination into actual mints. */
  method GetSpends(mints: seq<Mint>, wanted: Counts) returns (selected: seq<Mint>, spent: nat)
    requires Within(wanted, Supply(mints), N)
    ensures FairPick(selected, mints, 0)
    ensures spent == AmountOf(selected) == Total(wanted)
    ensures |selected| == Coins(wanted, N) && Supply(selected) == wanted
  {
    var i: nat := N;
    selected, spent := [], 0;
    while i > 0
      invariant i <= N
      invariant FairPick(selected, mints, i)
      invariant spent == AmountOf(selected) && spent + Worth(Amounts(), wanted, i) == Total(wanted)
      invariant |selected| + Coins(wanted, i) == Coins(wanted, N)
      invariant forall j :: 0 <= j < N ==> Supply(selected)[j] == if j < i then 0 else wanted[j]
    {
      i := i - 1;
      assert wanted[i] <= Supply(mints)[i];
      selected, spent := SpendDenomination(mints, i, wanted[i], selected, spent);
    }
  }

  // ---------- The alternative that minimizing looks for ----------

  /** The coins held up to position `top`. */
  function UpTo(held: Counts, top: int): (c: Counts) {
    seq(N, i requires 0 <= i < N => if i <= top then held[i] else 0)
  }

  /** Largest first up to position `top`, strictly below the target. */
  function Below(top: int, target: int, held: Counts): Counts {
    GreedyCounts(UpTo(held, top), target - 1)
  }

  /** The first position from i on with a held coin left that is worth more than what is missing; N if there is none. */
  function NextAbove(held: Counts, below: Counts, missing: int, i: nat): (k: nat)
    requires i <= N
    ensures i <= k <= N && (k < N ==> Amounts()[k] > missing && held[k] > below[k])
    ensures forall j :: i <= j < k ==> Amounts()[j] <= missing || held[j] <= below[j]
    decreases N - i
  {
    if i == N || (Amounts()[i] > missing && held[i] > below[i]) then i else NextAbove(held, below, missing, i + 1)
  }

  /** One such coin added. When less than nothing is missing only the smallest denomination is tried. */
  function Topped(held: Counts, below: Counts, missing: int): Counts {
    var k := NextAbove(held, below, missing, 0);
    if k < N && (missing >= 0 || k == 0) then below[k := below[k] + 1] else below
  }

  /** The coins that are not in the change too: of each denomination all that are returned go, or none is left. */
  function Dropped(used: Counts, change: Counts): (c: Counts)
    ensures forall i :: 0 <= i < N ==> c[i] <= used[i] && used[i] - c[i] <= change[i] && (c[i] == 0 || used[i] - c[i] == change[i])
  {
    seq(N, i requires 0 <= i < N => if used[i] > change[i] then used[i] - change[i] else 0)
  }

  /** A selection that may overshoot the target by less: largest first below it, one coin above what is
      then missing, and without the coins that would come back. */
  function Alternative(top: int, target: int, held: Counts): Counts {
    var below := Below(top, target, held);
    var above := Topped(held, below, target - Total(below));
    Dropped(above, ChangeFor(Total(above) - target))
  }

  /** The first part is largest first: every other selection up to `top` that stays below the target has
      fewer coins at the largest denomination at which the two differ. */
  lemma BelowIsLargestFirst(top: int, target: int, held: Counts, other: Counts) returns (at: nat)
    requires Within(other, UpTo(held, top), N) && Total(other) < target && other != Below(top, target, held)
    ensures at < N && other[at] < Below(top, target, held)[at]
    ensures forall i :: at < i < N ==> other[i] == Below(top, target, held)[i]
    ensures Total(Below(top, target, held)) < target
  {
    assert other[..N] == other;
    GreedyAtMost(Amounts(), UpTo(held, top), N, target - 1);
    at := GreedyIsLargestFirst(Amounts(), UpTo(held, top), other, N, target - 1);
  }

  /** What minimizing replaces a selection by: the fewest held coins worth as much as the alternative, if
      their change has fewer coins and they keep to the limit. */
  function Improved(maxSpends: int, changeCount: nat, top: int, target: int, held: Counts, saved: Counts): Counts {
    var fewest := GreedyCounts(held, Total(Alternative(top, target, held)));
    if ChangeCoins(Total(fewest) - target) < changeCount && Coins(fewest, N) <= maxSpends then fewest else saved
  }

  /** The change of the alternative has fewer coins, and some selection of its value keeps to the limit. */
  ghost predicate Improvable(maxSpends: int, changeCount: nat, top: int, target: int, held: Counts) {
    var amount := Total(Alternative(top, target, held));
    && ChangeCoins(amount - target) < changeCount
    && exists c: Counts :: Within(c, held, N) && Total(c) == amount && Coins(c, N) <= maxSpends
  }

  /** Then, and only then, the fewest coins of that value replace the selection. */
  lemma ImprovedIff(maxSpends: int, changeCount: nat, top: int, target: int, held: Counts, saved: Counts)
    ensures var amount := Total(Alternative(top, target, held));
            var used := Improved(maxSpends, changeCount, top, target, held, saved);
      if Improvable(maxSpends, changeCount, top, target, held) then
        && Within(used, held, N) && Total(used) == amount && Coins(used, N) <= maxSpends
        && forall c: Counts :: Within(c, held, N) && Total(c) == amount ==> Coins(used, N) <= Coins(c, N)
      else used == saved
  {
    hide Alternative, ChangeFor, Worth, Coins;
    AlternativeHeld(top, target, held);
    GreedyReaches(held, Total(Alternative(top, target, held)));
  }

  lemma AlternativeHeld(top: int, target: int, held: Counts)
    ensures Within(Alternative(top, target, held), held, N)
  {
    hide ChangeFor, Worth, Amounts;
  }

  // ---------- Change ----------

  /** First phase of minimizeChange for one denomination: grab coins while more than one coin's value is missing. */
  method GrabBelow(value: nat, held: nat, target: int) returns (taken: nat, remaining: int)
    requires value > 0
    ensures taken <= held && remaining == target - taken * value
    ensures target > 0 ==> remaining > 0
    ensures taken == held || remaining <= value
    ensures taken == Take(value, held, target - 1)
  {
    taken, remaining := 0, target;
    while remaining > value && taken < held
      invariant taken <= held && remaining == target - taken * value
      invariant target > 0 ==> remaining > 0
      invariant taken > 0 ==> taken * value < target
      decreases held - taken
    {
      TimesPlus(taken, 1, value);
      taken, remaining := taken + 1, remaining - value;
    }
    LoopTakes(value, held, target - 1, taken);
  }

  /** The first phase of minimizeChange, with the denominations from position i up done. */
  ghost predicate FilledFrom(i: nat, top: int, target: int, held: Counts, used: Counts, remaining: int) {
    && Within(used, held, N) && Total(used) == target - remaining
    && remaining <= target && (target > 0 ==> remaining > 0)
    && (forall j :: 0 <= j < N && (j < i || j > top) ==> used[j] == 0)
    && (forall j :: i <= j <= top && j < N ==> used[j] == held[j] || remaining <= Amounts()[j])
  }

  lemma FillOne(i: nat, top: int, target: int, held: Counts, used: Counts, start: int, taken: nat, remaining: int)
    requires i < N && i <= top && FilledFrom(i + 1, top, target, held, used, start)
    requires taken <= held[i] && remaining == start - taken * Amounts()[i]
    requires start > 0 ==> remaining > 0
    requires taken == held[i] || remaining <= Amounts()[i]
    ensures FilledFrom(i, top, target, held, used[i := taken], remaining)
  {
    UpdateCount(Amounts(), used, N, i, taken);
    TimesMonotone(0, taken, Amounts()[i]);
  }

  /** First phase of minimizeChange: coins up to position `top`, staying below the target. */
  method FillBelow(top: int, target: int, held: Counts) returns (used: Counts, remaining: int)
    requires top < N
    ensures FilledFrom(0, top, target, held, used, remaining)
    ensures used == Below(top, target, held)
  {
    hide FilledFrom, Paused, Greedy, Amounts, UpTo, Take;
    used, remaining := NoCoins(), target;
    FillStart(top, target, held);
    var i: nat := N;
    while i > 0
      invariant i <= N && FilledFrom(i, top, target, held, used, remaining)
      invariant Paused(Amounts(), UpTo(held, top), target - 1, i, remaining - 1, used[i..])
    {
      i := i - 1;
      ghost var start, before := remaining, used;
      if i <= top {
        var taken;
        taken, remaining := GrabBelow(Amounts()[i], held[i], remaining);
        FillOne(i, top, target, held, used, start, taken, remaining);
        used := used[i := taken];
      } else {
        FillSkips(i, top, target, held, used, remaining);
      }
      UpToAt(held, top, i);
      FillStep(i, top, target, held, before, start, used[i]);
      assert before[i := used[i]] == used;
    }
    PausedEnd(Amounts(), UpTo(held, top), target - 1, remaining - 1, used[0..]);
    assert used[0..] == used;
  }

  lemma FillStart(top: int, target: int, held: Counts)
    requires top < N
    ensures FilledFrom(N, top, target, held, NoCoins(), target)
    ensures Paused(Amounts(), UpTo(held, top), target - 1, N, target - 1, NoCoins()[N..])
  {
    AllZero(Amounts(), NoCoins(), N);
    PausedStart(Amounts(), UpTo(held, top), target - 1);
    assert NoCoins()[N..] == [];
  }

  /** Positions above `top` are left out. */
  lemma FillSkips(i: nat, top: int, target: int, held: Counts, used: Counts, remaining: int)
    requires top < i < N && FilledFrom(i + 1, top, target, held, used, remaining)
    ensures FilledFrom(i, top, target, held, used, remaining) && used[i] == 0
    ensures Take(Amounts()[i], 0, remaining - 1) == 0
  {
  }

  lemma UpToAt(held: Counts, top: int, i: nat)
    requires i < N
    ensures UpTo(held, top)[i] == if i <= top then held[i] else 0
  {
  }

  /** The greedy selection gets the same count at position i. */
  lemma FillStep(i: nat, top: int, target: int, held: Counts, used: Counts, start: int, taken: nat)
    requires i < N && Paused(Amounts(), UpTo(held, top), target - 1, i + 1, start - 1, used[i + 1..])
    requires taken == Take(Amounts()[i], UpTo(held, top)[i], start - 1)
    ensures Paused(Amounts(), UpTo(held, top), target - 1, i, start - taken * Amounts()[i] - 1, used[i := taken][i..])
  {
    hide Paused, Amounts, UpTo, Take;
    PausedStep(Amounts(), UpTo(held, top), target - 1, i + 1, start - 1, used[i + 1..]);
    assert used[i := taken][i..] == [taken] + used[i + 1..];
  }

  /** Second phase of minimizeChange: one coin just larger than what is still missing. */
  method FillAbove(held: Counts, start: Counts, missing: int, ghost target: int) returns (used: Counts, remaining: int)
    requires Within(start, held, N) && Total(start) == target - missing
    ensures Within(used, held, N) && Total(used) == target - remaining
    ensures remaining < 0 || (used == start && remaining == missing)
    ensures remaining >= 0 ==> forall i :: 0 <= i < N ==> held[i] == start[i] || Amounts()[i] <= missing
    ensures used == Topped(held, start, missing)
  {
    hide *;
    used, remaining := start, missing;
    ToppedIs(held, start, missing);
    for i := 0 to N
      invariant used == start && remaining == missing && (i > 0 ==> missing >= 0)
      invariant NextAbove(held, start, missing, 0) == NextAbove(held, start, missing, i)
    {
      NextStep(held, start, missing, i);
      if Amounts()[i] > remaining && used[i] < held[i] {
        AddAbove(held, used, i);
        used := used[i := used[i] + 1];
        remaining := remaining - Amounts()[i];
      }
      if remaining < 0 { break; }
    }
    if remaining >= 0 {
      NoneAbove(held, start, missing);
    }
  }

  lemma AddAbove(held: Counts, used: Counts, i: nat)
    requires i < N && Within(used, held, N) && used[i] < held[i]
    ensures Within(used[i := used[i] + 1], held, N) && Total(used[i := used[i] + 1]) == Total(used) + Amounts()[i]
  {
    hide Worth, Amounts;
    AddOne(used, i);
  }

  lemma ToppedIs(held: Counts, below: Counts, missing: int)
    ensures var k := NextAbove(held, below, missing, 0);
      Topped(held, below, missing) == if k < N && (missing >= 0 || k == 0) then below[k := below[k] + 1] else below
  {
  }

  lemma NextStep(held: Counts, below: Counts, missing: int, i: nat)
    requires i < N
    ensures NextAbove(held, below, missing, i)
         == if Amounts()[i] > missing && held[i] > below[i] then i else NextAbove(held, below, missing, i + 1)
  {
  }

  lemma NoneAbove(held: Counts, below: Counts, missing: int)
    requires Within(below, held, N) && NextAbove(held, below, missing, 0) == NextAbove(held, below, missing, N)
    ensures forall i :: 0 <= i < N ==> held[i] == below[i] || Amounts()[i] <= missing
  {
    hide Amounts;
  }

  /** Third phase of minimizeChange: coins that would be both spent and returned are dropped. */
  method DropOverlap(start: Counts, change: Counts) returns (used: Counts, amount: nat)
    ensures used == Dropped(start, change) && amount == Total(used)
    ensures Within(used, start, N) && amount + Total(change) >= Total(start)
  {
    hide Worth, Amounts;
    var values := Amounts();
    used, amount := start, Total(start);
    var rest := change;
    for i := 0 to N
      invariant |used| == N && |rest| == N && Within(used, start, N)
      invariant amount == Total(used) && amount + Total(change) == Total(start) + Total(rest)
      invariant forall j :: 0 <= j < i ==> used[j] == Dropped(start, change)[j]
      invariant forall j :: i <= j < N ==> used[j] == start[j] && rest[j] == change[j]
    {
      while rest[i] > 0 && used[i] > 0
        invariant |used| == N && |rest| == N && Within(used, start, N)
        invariant amount == Total(used) && amount + Total(change) == Total(start) + Total(rest)
        invariant forall j :: 0 <= j < i ==> used[j] == Dropped(start, change)[j]
        invariant forall j :: i < j < N ==> used[j] == start[j] && rest[j] == change[j]
        invariant used[i] <= start[i] && used[i] + change[i] == start[i] + rest[i]
        decreases rest[i]
      {
        UpdateCount(values, used, N, i, used[i] - 1);
        UpdateCount(values, rest, N, i, rest[i] - 1);
        TimesPlus(used[i] - 1, 1, values[i]);
        TimesPlus(rest[i] - 1, 1, values[i]);
        used := used[i := used[i] - 1];
        rest := rest[i := rest[i] - 1];
        amount := amount - values[i];
      }
    }
    assert used == Dropped(start, change);
  }

  /** Situations in which the second phase is sure to find a coin: a held coin above `top` is worth more
      than the target, or all held coins lie at or below `top`, suffice, and cannot meet the target exactly. */
  ghost predicate Coverable(held: Counts, top: int, target: int) {
    && target > 0
    && (|| (exists i :: top < i < N && 0 <= i && held[i] > 0 && Amounts()[i] > target)
        || ((forall i :: top < i < N && 0 <= i ==> held[i] == 0) && Total(held) >= target && !Reachable(held, target)))
  }

  lemma SecondPhaseFinds(held: Counts, top: int, target: int, used: Counts, missing: int)
    requires top < N && FilledFrom(0, top, target, held, used, missing)
    requires forall i :: 0 <= i < N ==> held[i] == used[i] || Amounts()[i] <= missing
    ensures !Coverable(held, top, target)
  {
    if target > 0 && forall i :: top < i < N && 0 <= i ==> held[i] == 0 {
      if i :| 0 <= i < N && held[i] != used[i] {
        assert i <= top;
        UpdateCount(Amounts(), used, N, i, used[i] + 1);
        TimesPlus(used[i], 1, Amounts()[i]);
        var exact: Counts := used[i := used[i] + 1];
        assert Within(exact, held, N) && Total(exact) == target;
      } else {
        PrefixOnly(Amounts(), used, held, N);
      }
    }
  }

  /** The first three phases of minimizeChange. */
  method FindAlternative(top: int, target: int, held: Counts) returns (amount: nat)
    requires top < N
    ensures amount == Total(Alternative(top, target, held))
    ensures Coverable(held, top, target) ==> amount >= target
  {
    hide Worth, Amounts, Dropped, Topped, Below, ChangeFor, FilledFrom, Coverable;
    var below, missing := FillBelow(top, target, held);
    FilledTotal(top, target, held, below, missing);
    var above, remaining := FillAbove(held, below, missing, target);
    if remaining >= 0 {
      SecondPhaseFinds(held, top, target, below, missing);
    }
    var change := GetChange(Total(above) - target);
    var fewer;
    fewer, amount := DropOverlap(above, change);
    ChangeAtMost(Total(above) - target);
  }

  lemma FilledTotal(top: int, target: int, held: Counts, used: Counts, remaining: int)
    requires FilledFrom(0, top, target, held, used, remaining)
    ensures Within(used, held, N) && Total(used) == target - remaining
  {
  }

  lemma ChangeAtMost(amount: int)
    ensures Total(ChangeFor(amount)) <= if amount > 0 then amount else 0
  {
    GreedyAtMost(Amounts(), Plenty(amount), N, amount);
  }

  /** minimizeChange. Either the caller's selection and count come back unchanged, or a selection within the
      held coins and the spend limit whose change has fewer coins. */
  method MinimizeChange(maxSpends: int, changeCount: nat, top: int, target: int, held: Counts, saved: Counts)
    returns (count: nat, used: Counts)
    requires top < N
    ensures (count == changeCount && used == saved)
         || (&& count < changeCount && Coins(used, N) <= maxSpends && Within(used, held, N)
             && count == ChangeCoins(Total(used) - target))
    ensures count < changeCount && Coverable(held, top, target) ==> Total(used) >= target
    // the improvement is taken exactly when it is one
    ensures used == Improved(maxSpends, changeCount, top, target, held, saved)
    ensures count < changeCount <==> Improvable(maxSpends, changeCount, top, target, held)
  {
    hide Worth, Coins, Alternative, ChangeFor, Coverable;
    var amount := FindAlternative(top, target, held);
    AlternativeHeld(top, target, held);
    GreedyReaches(held, amount);
    used := GetSpendCoins(amount, held);
    var coinCount := GetNumberOfCoinsUsed(used);
    var change := GetChange(amount - target);
    count := GetNumberOfCoinsUsed(change);
    if count < changeCount && coinCount <= maxSpends {
      return;
    }
    count, used := changeCount, saved;
  }

  /** The position of the largest coin held below position i, -1 if there is none. */
  function HeldBelow(i: nat, held: Counts): (top: int)
    requires i <= N
    ensures -1 <= top < i && (top >= 0 ==> held[top] > 0)
    ensures forall j :: top < j < i && 0 <= j ==> held[j] == 0
  {
    if i == 0 then -1 else if held[i - 1] != 0 then i - 1 else HeldBelow(i - 1, held)
  }

  /** getMaxDenomHeld: the position of the largest coin held, -1 (ZQ_ERROR) if there is none. */
  method GetMaxDenomHeld(held: Counts) returns (top: int)
    ensures -1 <= top < N && (top >= 0 ==> held[top] > 0)
    ensures forall i :: top < i < N && 0 <= i ==> held[i] == 0
    ensures top == HeldBelow(N, held)
  {
    top := N - 1;
    while top >= 0
      invariant -1 <= top < N && HeldBelow(N, held) == HeldBelow(top + 1, held)
      invariant forall i :: top < i < N && 0 <= i ==> held[i] == 0
    {
      if held[top] != 0 { return; }
      top := top - 1;
    }
  }

  /** getNextLowerDenomHeld: the largest coin held below position `i`, -1 if there is none. */
  method GetNextLowerDenomHeld(i: nat, held: Counts) returns (top: int)
    requires i < N
    ensures -1 <= top < i && (top >= 0 ==> held[top] > 0)
    ensures forall j :: top < j < i && 0 <= j ==> held[j] == 0
    ensures top == HeldBelow(i, held)
  {
    top := i - 1;
    while top >= 0
      invariant -1 <= top < i && HeldBelow(i, held) == HeldBelow(top + 1, held)
      invariant forall j :: top < j < i && 0 <= j ==> held[j] == 0
    {
      if held[top] != 0 { return; }
      top := top - 1;
    }
  }

  /** Where calculateChange finds a single coin for the target; N if no held coin is worth more. */
  function Over(target: int, held: Counts): (k: nat)
    ensures k <= N
  {
    NextAbove(held, NoCoins(), target, 0)
  }

  /** The selection calculateChange starts from: the smallest single coin that will do, or else largest
      coins first until the target is covered. */
  function Plain(target: int, held: Counts): Counts {
    var at := Over(target, held);
    if at < N then NoCoins()[at := 1] else Cover(Amounts(), held, N, target)
  }

  /** The selection calculateChange ends with. Without `minimize` a single coin is kept, and several coins
      are only replaced by no more coins. */
  function ChangeSelection(maxSpends: int, minimize: bool, target: int, held: Counts): Counts {
    var at, plain := Over(target, held), Plain(target, held);
    var better := Improved(maxSpends, ChangeCoins(Total(plain) - target), HeldBelow(at, held), target, held, plain);
    if minimize || (at == N && Coins(better, N) <= Coins(plain, N)) then better else plain
  }

  /** Minimizing returns fewer coins exactly when it can, and never more; without it a single coin stays, and
      several coins give way to no more coins only. */
  lemma MinimizingHelps(maxSpends: int, target: int, held: Counts)
    ensures var plain, used := Plain(target, held), ChangeSelection(maxSpends, true, target, held);
            var before, after := ChangeCoins(Total(plain) - target), ChangeCoins(Total(used) - target);
      && after <= before
      && (after < before <==> Improvable(maxSpends, before, HeldBelow(Over(target, held), held), target, held))
      && (after < before ==> after == ChangeCoins(Total(Alternative(HeldBelow(Over(target, held), held), target, held)) - target))
    ensures Over(target, held) < N ==> ChangeSelection(maxSpends, false, target, held) == Plain(target, held)
    ensures Over(target, held) == N ==>
      var plain, used := Plain(target, held), ChangeSelection(maxSpends, true, target, held);
      ChangeSelection(maxSpends, false, target, held) == if Coins(used, N) <= Coins(plain, N) then used else plain
  {
    hide Plain, Over, HeldBelow, Worth, Coins, Amounts, ChangeFor, Alternative, Improved;
    var plain, top := Plain(target, held), HeldBelow(Over(target, held), held);
    var before := ChangeCoins(Total(plain) - target);
    ImprovedIff(maxSpends, before, top, target, held, plain);
  }

  /** The single coin that covers the target on its own: the smallest held one worth more, if any. */
  method MinDenomOverTarget(target: int, held: Counts) returns (at: int)
    ensures -1 <= at < N
    ensures at >= 0 ==> held[at] > 0 && target < Amounts()[at]
    ensures at >= 0 ==> forall j :: 0 <= j < N && held[j] > 0 && target < Amounts()[j] ==> Amounts()[at] <= Amounts()[j]
    ensures at < 0 ==> forall i :: 0 <= i < N ==> target >= Amounts()[i] || held[i] == 0
    ensures Over(target, held) == if at >= 0 then at else N
  {
    for i := 0 to N
      invariant Over(target, held) == NextAbove(held, NoCoins(), target, i)
      invariant forall j :: 0 <= j < i ==> target >= Amounts()[j] || held[j] == 0
    {
      if target < Amounts()[i] && held[i] > 0 {
        AmountsAscend(i);
        return i;
      }
    }
    at := -1;
  }

  lemma AmountsAscend(i: nat)
    requires i < N
    ensures forall j :: i <= j < N ==> Amounts()[i] <= Amounts()[j]
  {
    AmountsAreChain();
    forall j | i <= j < N ensures Amounts()[i] <= Amounts()[j] {
      ChainAscends(Amounts(), i, j);
    }
  }

  lemma SingleCoin(i: nat, held: Counts)
    requires i < N && held[i] > 0
    ensures Total(NoCoins()[i := 1]) == Amounts()[i]
    ensures Within(NoCoins()[i := 1], held, N)
  {
    hide Worth, Coins, Amounts;
    AllZero(Amounts(), NoCoins(), N);
    UpdateCount(Amounts(), NoCoins(), N, i, 1);
  }

  lemma SingleIsFewest(i: nat, held: Counts, target: int, maxSpends: int)
    requires i < N && held[i] > 0
    ensures Frugal(maxSpends, target, held, NoCoins()[i := 1])
  {
    AllZero(Amounts(), NoCoins(), N);
    UpdateCount(Amounts(), NoCoins(), N, i, 1);
    forall c: Counts | Within(c, held, N) && Total(c) >= target > 0 ensures Coins(c, N) >= 1 {
      if Coins(c, N) == 0 {
        NoCoinsNoWorth(c, N);
      }
    }
  }

  lemma AddOne(used: Counts, i: nat)
    requires i < N
    ensures Total(used[i := used[i] + 1]) == Total(used) + Amounts()[i]
  {
    UpdateCount(Amounts(), used, N, i, used[i] + 1);
    TimesPlus(used[i], 1, Amounts()[i]);
  }

  /** The second way of calculateChange, with the denominations from position i up done. */
  ghost predicate CoveredFrom(i: nat, target: int, held: Counts, used: Counts, amount: nat) {
    && Within(used, held, N) && amount == Total(used)
    && (forall j :: 0 <= j < i && j < N ==> used[j] == 0)
    && (amount < target ==> forall j :: i <= j < N ==> used[j] == held[j])
  }

  lemma CoveredParts(i: nat, target: int, held: Counts, used: Counts, amount: nat)
    requires i <= N && CoveredFrom(i, target, held, used, amount)
    ensures Within(used, held, N) && amount == Total(used) == Worth(Amounts(), used, N)
    ensures forall j :: 0 <= j < i ==> used[j] == 0
    ensures amount < target && i == 0 ==> forall j :: 0 <= j < N ==> used[j] == held[j]
    ensures Total(held) == Worth(Amounts(), held, N)
  {
    hide Worth, Amounts, Within;
  }

  lemma NothingCovered(target: int, held: Counts)
    ensures 0 < N && CoveredFrom(N, target, held, NoCoins(), 0) && NeedsLast(target, held, NoCoins(), 0, 0)
  {
    AllZero(Amounts(), NoCoins(), N);
  }

  /** A covering selection that keeps to the spend limit, or else no covering selection does. */
  ghost predicate Frugal(maxSpends: int, target: int, held: Counts, used: Counts) {
    target > 0 && Total(used) >= target && Coins(used, N) > maxSpends ==>
      forall c: Counts :: Within(c, held, N) && Total(c) >= target ==> Coins(c, N) > maxSpends
  }

  lemma FrugalWithin(maxSpends: int, target: int, held: Counts, used: Counts)
    requires Coins(used, N) <= maxSpends
    ensures Frugal(maxSpends, target, held, used)
  {
  }

  /** Position j holds the last coin that was needed. */
  ghost predicate NeedsLast(target: int, held: Counts, used: Counts, amount: nat, j: nat) {
    target > 0 && amount >= target ==> TopHeavy(used, held, N, j) && amount - Amounts()[j] < target
  }

  lemma LastIsFewest(target: int, held: Counts, used: Counts, amount: nat, j: nat, maxSpends: int)
    requires j < N && NeedsLast(target, held, used, amount, j) && amount == Total(used)
    ensures Frugal(maxSpends, target, held, used)
  {
    if target > 0 && amount >= target {
      AmountsAreChain();
      forall c: Counts | Within(c, held, N) && Total(c) >= target ensures Coins(used, N) <= Coins(c, N) {
        FewestCoins(Amounts(), held, used, c, N, j, target);
      }
    }
  }

  /** The second way of calculateChange: largest coins first until the target is covered. No covering
      selection has fewer coins. */
  method CoverFromTop(target: int, held: Counts, ghost maxSpends: int) returns (used: Counts, amount: nat)
    ensures used == Cover(Amounts(), held, N, target)
    ensures Within(used, held, N) && amount == Total(used)
    ensures Total(held) >= target ==> amount >= target
    ensures Frugal(maxSpends, target, held, used)
  {
    hide *;
    used, amount := NoCoins(), 0;
    NothingCovered(target, held);
    var remaining := target;
    var i: nat := N;
    ghost var last: nat := 0;
    ghost var cover := Cover(Amounts(), held, N, target);
    assert cover + used[N..] == cover;
    while i > 0
      invariant i <= N && remaining == target - amount
      invariant CoveredFrom(i, target, held, used, amount)
      invariant cover == Cover(Amounts(), held, i, remaining) + used[i..]
      invariant last < N && NeedsLast(target, held, used, amount, last)
    {
      ghost var before := used;
      CoverStep(Amounts(), held, i, remaining, used[i..]);
      i := i - 1;
      used, amount, last := CoverWith(i, target, held, used, amount, last);
      assert used[i..] == [used[i]] + before[i + 1..];
      remaining := target - amount;
      if remaining < 0 { break; }
    }
    CoveredParts(i, target, held, used, amount);
    CoverEnd(Amounts(), held, i, remaining, used);
    LastIsFewest(target, held, used, amount, last, maxSpends);
    if amount < target {
      PrefixOnly(Amounts(), used, held, N);
    }
  }

  /** The coins of one denomination in CoverFromTop. */
  method CoverWith(i: nat, target: int, held: Counts, before: Counts, amountBefore: nat, ghost lastBefore: nat)
    returns (used: Counts, amount: nat, ghost last: nat)
    requires i < N && CoveredFrom(i + 1, target, held, before, amountBefore)
    requires lastBefore < N && NeedsLast(target, held, before, amountBefore, lastBefore)
    ensures CoveredFrom(i, target, held, used, amount)
    ensures last < N && NeedsLast(target, held, used, amount, last)
    ensures used == before[i := used[i]] && amount == amountBefore + used[i] * Amounts()[i]
    ensures used[i] == TakeOver(Amounts()[i], held[i], target - amountBefore)
  {
    hide Worth, Coins, TakeOver;
    used, amount, last := before, amountBefore, lastBefore;
    assert before[i] == 0;
    assert amount == amountBefore + used[i] * Amounts()[i];
    while target - amount > 0 && used[i] < held[i]
      invariant used == before[i := used[i]] && used[i] <= held[i]
      invariant amount == Total(used) && amount >= amountBefore
      invariant amount == amountBefore + used[i] * Amounts()[i]
      invariant used[i] > 0 ==> (used[i] - 1) * Amounts()[i] < target - amountBefore
      invariant last < N && NeedsLast(target, held, used, amount, last)
      decreases held[i] - used[i]
    {
      AddOne(used, i);
      TimesPlus(used[i], 1, Amounts()[i]);
      used := used[i := used[i] + 1];
      amount := amount + Amounts()[i];
      last := i;
    }
    TakeOverUnique(Amounts()[i], held[i], target - amountBefore, used[i]);
  }

  /** What a change computation owes its caller. */
  ghost predicate ChangeContract(maxSpends: int, target: int, held: Counts, count: nat, used: Counts) {
    && Within(used, held, N) && count == ChangeCoins(Total(used) - target) && Frugal(maxSpends, target, held, used)
    && (target > 0 && target % COIN == 0 && Total(held) >= target && !Reachable(held, target) ==> count > 0)
  }

  lemma ContractHolds(maxSpends: int, target: int, held: Counts, used: Counts)
    requires Within(used, held, N) && (Coverable(held, N - 1, target) ==> Total(used) >= target)
    requires Frugal(maxSpends, target, held, used)
    ensures ChangeContract(maxSpends, target, held, ChangeCoins(Total(used) - target), used)
  {
    hide Frugal;
    OvershootHasChange(held, used, target);
    assert Total(held) >= target > 0 && !Reachable(held, target) ==> Coverable(held, N - 1, target);
  }

  /** The branch of calculateChange that starts from one coin larger than the target. */
  method ChangeFromOneCoin(maxSpends: int, minimize: bool, target: int, held: Counts, at: nat) returns (count: nat, used: Counts)
    requires at < N && at == Over(target, held) && held[at] > 0 && target < Amounts()[at]
    ensures ChangeContract(maxSpends, target, held, count, used)
    ensures used == ChangeSelection(maxSpends, minimize, target, held)
  {
    hide Frugal, Worth, Coins, Improved, Improvable, Amounts, ChangeFor;
    used := NoCoins()[at := 1];
    SingleCoin(at, held);
    SingleIsFewest(at, held, target, maxSpends);
    ContractHolds(maxSpends, target, held, used);
    var change := GetChange(Amounts()[at] - target);
    count := GetNumberOfCoinsUsed(change);
    if minimize {
      var top := GetNextLowerDenomHeld(at, held);
      var newCount, newUsed := MinimizeChange(maxSpends, count, top, target, held, used);
      if newCount < count {
        assert target > 0 ==> Coverable(held, top, target);
        FrugalWithin(maxSpends, target, held, newUsed);
        ContractHolds(maxSpends, target, held, newUsed);
        return newCount, newUsed;
      }
    }
  }

  /** The branch of calculateChange for targets that no single coin covers. */
  method ChangeFromManyCoins(maxSpends: int, minimize: bool, target: int, held: Counts) returns (count: nat, used: Counts)
    requires Over(target, held) == N
    ensures ChangeContract(maxSpends, target, held, count, used)
    ensures used == ChangeSelection(maxSpends, minimize, target, held)
  {
    hide Frugal, Worth, Coins, Improved, Improvable, Amounts, ChangeFor, Cover, HeldBelow, ChangeSelection, Alternative, Within;
    var amount;
    used, amount := CoverFromTop(target, held, maxSpends);
    ContractHolds(maxSpends, target, held, used);
    var change := GetChange(amount - target);
    count := GetNumberOfCoinsUsed(change);
    var top := GetMaxDenomHeld(held);
    var fewest, fewer := MinimizeChange(maxSpends, count, top, target, held, used);
    CoverableToTop(held, top, target);
    ChangeSelectionIs(maxSpends, minimize, target, held);
    if fewest < count {
      FrugalWithin(maxSpends, target, held, fewer);
    }
    ContractHolds(maxSpends, target, held, fewer);
    var spends := GetNumberOfCoinsUsed(fewer);
    var coinCount := GetNumberOfCoinsUsed(used);
    if !minimize && coinCount < spends {
      return;
    }
    count, used := fewest, fewer;
  }

  lemma ChangeSelectionIs(maxSpends: int, minimize: bool, target: int, held: Counts)
    requires Over(target, held) == N
    ensures var plain: Counts := Cover(Amounts(), held, N, target);
            var better := Improved(maxSpends, ChangeCoins(Total(plain) - target), HeldBelow(N, held), target, held, plain);
      ChangeSelection(maxSpends, minimize, target, held) == if minimize || Coins(better, N) <= Coins(plain, N) then better else plain
  {
    hide Cover, Improved, Worth, Amounts, ChangeFor, Over, HeldBelow, Coins;
  }

  /** With everything held at or below `top`, leaving out the rest loses nothing. */
  lemma CoverableToTop(held: Counts, top: int, target: int)
    requires forall i :: top < i < N && 0 <= i ==> held[i] == 0
    ensures Coverable(held, N - 1, target) ==> Coverable(held, top, target)
  {
  }

  /** calculateChange: a selection that overshoots the target, and the number of coins in its change.
      A count of 0 means failure. With a whole number of coins to pay, enough coins held and no exact
      selection among them, it always succeeds. */
  method CalculateChange(maxSpends: int, minimize: bool, target: int, held: Counts) returns (count: nat, used: Counts)
    ensures ChangeContract(maxSpends, target, held, count, used)
    ensures used == ChangeSelection(maxSpends, minimize, target, held)
  {
    hide ChangeContract, ChangeSelection;
    var at := MinDenomOverTarget(target, held);
    if at >= 0 {
      count, used := ChangeFromOneCoin(maxSpends, minimize, target, held, at);
    } else {
      count, used := ChangeFromManyCoins(maxSpends, minimize, target, held);
    }
  }

  /** A selection within the held coins that reaches an unreachable whole target overshoots it by a whole number of coins. */
  lemma OvershootHasChange(held: Counts, used: Counts, target: int)
    requires Within(used, held, N)
    ensures target % COIN == 0 && !Reachable(held, target) && Total(used) >= target ==> ChangeCoins(Total(used) - target) > 0
  {
    if target % COIN == 0 && !Reachable(held, target) && Total(used) >= target {
      assert Total(used) != target;
      TotalIsWhole(used, N);
      WholeDifference(Total(used), target);
      ChangeIsMinimal(Total(used) - target, used);
      if ChangeCoins(Total(used) - target) == 0 {
        NoCoinsNoWorth(ChangeFor(Total(used) - target), N);
      }
    }
  }

  lemma WholeDifference(a: int, b: int)
    requires a % COIN == 0 && b % COIN == 0
    ensures (a - b) % COIN == 0
  {
  }

  lemma {:induction false} TotalIsWhole(used: Counts, n: nat)
    requires n <= N
    ensures Worth(Amounts(), used, n) % COIN == 0
  {
    if n > 0 {
      TotalIsWhole(used, n - 1);
      assert used[n - 1] * Amounts()[n - 1] == COIN * (used[n - 1] * Face(n - 1));
      MultipleMod(COIN, used[n - 1] * Face(n - 1));
      MultiplePlus(Worth(Amounts(), used, n - 1), used[n - 1] * Amounts()[n - 1]);
    }
  }

  lemma MultiplePlus(a: int, b: int)
    requires a % COIN == 0 && b % COIN == 0
    ensures (a + b) % COIN == 0
  {
  }

  lemma {:induction false} NoCoinsNoWorth(used: Counts, n: nat)
    requires n <= N && Coins(used, n) == 0
    ensures Worth(Amounts(), used, n) == 0
  {
    if n > 0 {
      NoCoinsNoWorth(used, n - 1);
    }
  }

  lemma PositiveChange(amount: int)
    requires ChangeCoins(amount) > 0
    ensures amount > 0
  {
    GreedyAtMost(Amounts(), Plenty(amount), N, amount);
  }

  /** SelectMintsFromList, with its out-parameters nSelectedValue, nCoinsReturned and nNeededSpends.
      The caller passes as `held` the number of unused mints of each denomination. */
  method SelectMintsFromList(target: int, maxSpends: int, minimize: bool, mints: seq<Mint>, held: Counts)
    returns (selected: seq<Mint>, selectedValue: int, coinsReturned: nat, neededSpends: nat)
    requires held == Supply(mints)
    // whatever is returned can be spent, is worth what is claimed, covers the target, and its change is as counted
    ensures selected != [] ==>
      && FairPick(selected, mints, 0) && AmountOf(selected) == selectedValue >= target
      && coinsReturned == ChangeCoins(selectedValue - target)
    // a target that can be met exactly within the spend limit is, with as few coins as possible
    ensures forall c: Counts :: Within(c, held, N) && Total(c) == target && (maxSpends < 0 || Coins(c, N) <= maxSpends) ==>
      selectedValue == target && coinsReturned == 0 && |selected| <= Coins(c, N)
    // a whole target that cannot be met exactly is covered whenever the mints suffice
    ensures target > 0 && target % COIN == 0 && Total(held) >= target && !Reachable(held, target) ==> selected != []
    // for a positive target the spend limit is kept exactly when some covering selection keeps it
    ensures target > 0 && maxSpends >= 0 && selected != [] ==>
      (|selected| <= maxSpends <==> exists c: Counts :: Within(c, held, N) && Total(c) >= target && Coins(c, N) <= maxSpends)
    // too few mints: nothing is selected
    ensures Total(held) < target ==> selected == []
    // otherwise the coins are those of the selection below, unless it has no change
    ensures !Reachable(held, target) || 0 <= maxSpends < Coins(GreedyCounts(held, target), N) ==>
      var used := ChangeSelection(maxSpends, minimize, target, held);
      && coinsReturned == ChangeCoins(Total(used) - target)
      && (if coinsReturned == 0 then selected == [] else Supply(selected) == used && selectedValue == Total(used))
    // and when minimizing, fewer coins than those of the plain selection come back exactly when that is possible
    ensures minimize && (!Reachable(held, target) || 0 <= maxSpends < Coins(GreedyCounts(held, target), N)) ==>
      var before := ChangeCoins(Total(Plain(target, held)) - target);
      && coinsReturned <= before
      && (coinsReturned < before <==> Improvable(maxSpends, before, HeldBelow(Over(target, held), held), target, held))
    ensures neededSpends == if Reachable(held, target) && 0 <= maxSpends < Coins(GreedyCounts(held, target), N)
                            then Coins(GreedyCounts(held, target), N) else 0
  {
    hide *;
    neededSpends := 0;
    selectedValue := 0;
    var exact, used := GetIdealSpends(target, mints);
    GreedyReaches(held, target);
    if exact {
      ExactFacts(target, held, used);
      selected, selectedValue := GetSpends(mints, used);
      // the limit is compared as an unsigned number
      if |selected| <= maxSpends || maxSpends < 0 {
        coinsReturned := 0;
        return;
      }
      neededSpends := |selected|;
    }
    UnreachableNone(target, held);
    selected, selectedValue, coinsReturned := SpendWithChange(target, maxSpends, minimize, mints, held);
    ghost var selection := ChangeSelection(maxSpends, minimize, target, held);
    ContractSucceeds(maxSpends, target, held, coinsReturned, selection);
    MinimizingHelps(maxSpends, target, held);
    if coinsReturned > 0 {
      ChangeFacts(maxSpends, target, held, coinsReturned, selection);
    }
  }

  lemma UnreachableNone(target: int, held: Counts)
    ensures !Reachable(held, target) ==> forall c: Counts :: Within(c, held, N) ==> Total(c) != target
  {
    hide Within, Total;
  }

  lemma ExactFacts(target: int, held: Counts, used: Counts)
    requires used == GreedyCounts(held, target) && Total(used) == target
    ensures Within(used, held, N) && target <= Total(held) && ChangeCoins(0) == 0
  {
    GreedyAtMost(Amounts(), Plenty(0), N, 0);
    WorthMonotone(Amounts(), used, held, N);
  }

  /** The second half of SelectMintsFromList. */
  method SpendWithChange(target: int, maxSpends: int, minimize: bool, mints: seq<Mint>, held: Counts)
    returns (selected: seq<Mint>, selectedValue: int, coinsReturned: nat)
    requires held == Supply(mints)
    ensures var used := ChangeSelection(maxSpends, minimize, target, held);
      && ChangeContract(maxSpends, target, held, coinsReturned, used)
      && FairPick(selected, mints, 0)
      && (if coinsReturned == 0 then selected == [] && selectedValue == 0
          else Supply(selected) == used && AmountOf(selected) == selectedValue == Total(used) && |selected| == Coins(used, N))
  {
    hide AmountOf, Unused, ChangeSelection, ChangeContract, Supply;
    var used;
    selected, selectedValue := [], 0;
    coinsReturned, used := CalculateChange(maxSpends, minimize, target, held);
    if coinsReturned != 0 {
      assert Within(used, held, N) by { ContractWithin(maxSpends, target, held, coinsReturned, used); }
      selected, selectedValue := GetSpends(mints, used);
    }
  }

  lemma ContractWithin(maxSpends: int, target: int, held: Counts, count: nat, used: Counts)
    requires ChangeContract(maxSpends, target, held, count, used)
    ensures Within(used, held, N)
  {
  }

  lemma ContractSucceeds(maxSpends: int, target: int, held: Counts, count: nat, used: Counts)
    requires ChangeContract(maxSpends, target, held, count, used)
    ensures count == ChangeCoins(Total(used) - target)
    ensures target > 0 && target % COIN == 0 && Total(held) >= target && !Reachable(held, target) ==> count > 0
  {
    hide Frugal;
  }

  /** What the contract of a change computation says about the mints picked by it. */
  lemma ChangeFacts(maxSpends: int, target: int, held: Counts, count: nat, used: Counts)
    requires ChangeContract(maxSpends, target, held, count, used) && count > 0
    ensures count == ChangeCoins(Total(used) - target) && target < Total(used) <= Total(held)
    ensures target > 0 ==> Coins(used, N) > 0
    ensures target > 0 ==>
      (Coins(used, N) <= maxSpends <==> exists c: Counts :: Within(c, held, N) && Total(c) >= target && Coins(c, N) <= maxSpends)
  {
    hide Amounts, ChangeFor;
    PositiveChange(Total(used) - target);
    WorthMonotone(Amounts(), used, held, N);
    if Coins(used, N) == 0 {
      NoCoinsNoWorth(used, N);
    }
  }
}
