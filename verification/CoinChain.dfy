/** Largest-first selection over coin values that divide into one another is exact and uses the fewest coins. */
module CoinChain {
  import opened Basics

  /** Each value is positive and divides the next. */
  ghost predicate IsChain(values: seq<nat>) {
    && (forall i :: 0 <= i < |values| ==> values[i] > 0)
    && (forall i :: 0 < i < |values| ==> values[i] % values[i - 1] == 0)
  }

  /** The total value of counts[..n] coins. */
  function Worth(values: seq<nat>, counts: seq<nat>, n: nat): nat
    requires n <= |values| && n <= |counts|
  {
    if n == 0 then 0 else Worth(values, counts, n - 1) + counts[n - 1] * values[n - 1]
  }

  /** The number of coins in counts[..n]. */
  function Coins(counts: seq<nat>, n: nat): nat
    requires n <= |counts|
  {
    if n == 0 then 0 else Coins(counts, n - 1) + counts[n - 1]
  }

  ghost predicate Within(counts: seq<nat>, supply: seq<nat>, n: nat) {
    n <= |counts| && n <= |supply| && forall i :: 0 <= i < n ==> counts[i] <= supply[i]
  }

  /** How many coins of one value a greedy pass takes: as many as fit into the target and the supply. */
  function Take(value: nat, available: nat, target: int): (g: nat)
    requires value > 0
    ensures g <= available && (g > 0 ==> g * value <= target)
    ensures target >= 0 ==> g == available || target - g * value < value
  {
    if target < value then 0
    else if target / value <= available then DivBounds(target, value); target / value
    else DivBounds(target, value); TimesMonotone(available, target / value, value); available
  }

  /** The two bounds determine the number of coins taken. */
  lemma TakeUnique(value: nat, available: nat, target: int, g: nat)
    requires value > 0 && target >= 0
    requires g <= available && g * value <= target
    requires g == available || target - g * value < value
    ensures g == Take(value, available, target)
  {
    var h := Take(value, available, target);
    if g < h {
      TimesMonotone(g + 1, h, value);
      assert false;
    } else if h < g {
      TimesMonotone(h + 1, g, value);
      assert false;
    }
  }

  /** How many coins of one value cover a target: as few as do, or all of them. */
  function TakeOver(value: nat, available: nat, target: int): (g: nat)
    requires value > 0
    ensures g <= available
  {
    var under := Take(value, available, target - 1);
    if target <= 0 then 0 else if under < available then under + 1 else available
  }

  lemma TakeOverUnique(value: nat, available: nat, target: int, g: nat)
    requires value > 0 && g <= available && (g > 0 ==> (g - 1) * value < target)
    requires target - g * value <= 0 || g == available
    ensures g == TakeOver(value, available, target)
  {
    if g > 0 {
      TimesMonotone(0, g - 1, value);
      TakesMost(value, available, target - 1, g - 1);
      var under := Take(value, available, target - 1);
      if g <= under {
        TimesMonotone(g, under, value);
      }
    } else if available > 0 {
      assert target <= 0;
    }
  }

  /** Largest coins first among the n smallest, until the target is covered. */
  function Cover(values: seq<nat>, supply: seq<nat>, n: nat, target: int): (counts: seq<nat>)
    requires n <= |values| && n <= |supply|
    requires forall i :: 0 <= i < |values| ==> values[i] > 0
    ensures |counts| == n && Within(counts, supply, n)
    decreases n
  {
    if n == 0 then []
    else
      var g := TakeOver(values[n - 1], supply[n - 1], target);
      Cover(values, supply, n - 1, target - g * values[n - 1]) + [g]
  }

  /** One denomination further down. */
  lemma CoverStep(values: seq<nat>, supply: seq<nat>, i: nat, remaining: int, done: seq<nat>)
    requires 0 < i <= |values| && i <= |supply|
    requires forall j :: 0 <= j < |values| ==> values[j] > 0
    ensures var g := TakeOver(values[i - 1], supply[i - 1], remaining);
      Cover(values, supply, i, remaining) + done == Cover(values, supply, i - 1, remaining - g * values[i - 1]) + ([g] + done)
  {
    hide TakeOver;
    var g := TakeOver(values[i - 1], supply[i - 1], remaining);
    var lower := Cover(values, supply, i - 1, remaining - g * values[i - 1]);
    assert lower + [g] + done == lower + ([g] + done);
  }

  /** Once the target is covered nothing more is taken. */
  lemma CoverEnd(values: seq<nat>, supply: seq<nat>, i: nat, remaining: int, counts: seq<nat>)
    requires i <= |values| && i <= |supply| && i <= |counts| && (i > 0 ==> remaining <= 0)
    requires forall j :: 0 <= j < |values| ==> values[j] > 0
    requires forall j :: 0 <= j < i ==> counts[j] == 0
    ensures Cover(values, supply, i, remaining) + counts[i..] == counts
  {
    hide Cover;
    if i > 0 {
      CoverNothing(values, supply, i, remaining);
    } else {
      CoverNone(values, supply, remaining);
    }
    assert Cover(values, supply, i, remaining) == counts[..i];
  }

  lemma CoverNone(values: seq<nat>, supply: seq<nat>, target: int)
    requires forall j :: 0 <= j < |values| ==> values[j] > 0
    ensures Cover(values, supply, 0, target) == []
  {
  }

  lemma {:induction false} CoverNothing(values: seq<nat>, supply: seq<nat>, n: nat, target: int)
    requires n <= |values| && n <= |supply| && target <= 0
    requires forall i :: 0 <= i < |values| ==> values[i] > 0
    ensures forall i :: 0 <= i < n ==> Cover(values, supply, n, target)[i] == 0
  {
    if n > 0 {
      CoverNothing(values, supply, n - 1, target);
    }
  }

  /** The greedy selection among the n smallest coins, largest first. */
  function Greedy(values: seq<nat>, supply: seq<nat>, n: nat, target: int): (counts: seq<nat>)
    requires n <= |values| && n <= |supply|
    requires forall i :: 0 <= i < |values| ==> values[i] > 0
    ensures |counts| == n && Within(counts, supply, n)
  {
    if n == 0 then []
    else
      var g := Take(values[n - 1], supply[n - 1], target);
      Greedy(values, supply, n - 1, target - g * values[n - 1]) + [g]
  }

  /** What a greedy pass leaves of the target. */
  function GreedyRest(values: seq<nat>, supply: seq<nat>, n: nat, target: int): int
    requires n <= |values| && n <= |supply|
    requires forall i :: 0 <= i < |values| ==> values[i] > 0
    decreases n
  {
    if n == 0 then target
    else GreedyRest(values, supply, n - 1, target - Take(values[n - 1], supply[n - 1], target) * values[n - 1])
  }

  lemma {:induction false} GreedyRestIs(values: seq<nat>, supply: seq<nat>, n: nat, target: int)
    requires n <= |values| && n <= |supply|
    requires forall i :: 0 <= i < |values| ==> values[i] > 0
    ensures GreedyRest(values, supply, n, target) == target - Worth(values, Greedy(values, supply, n, target), n)
    decreases n
  {
    if n > 0 {
      var g := Take(values[n - 1], supply[n - 1], target);
      var rest := target - g * values[n - 1];
      GreedyRestIs(values, supply, n - 1, rest);
      var lower := Greedy(values, supply, n - 1, rest);
      PrefixOnly(values, lower, lower + [g], n - 1);
    }
  }

  /** A greedy pass over all coins, stopped before coin i: what is left to do and what is already chosen. */
  ghost predicate Paused(values: seq<nat>, supply: seq<nat>, target: int, i: nat, remaining: int, done: seq<nat>)
    requires |supply| == |values| && i <= |values|
    requires forall j :: 0 <= j < |values| ==> values[j] > 0
  {
    && |done| == |values| - i
    && Greedy(values, supply, |values|, target) == Greedy(values, supply, i, remaining) + done
    && GreedyRest(values, supply, |values|, target) == GreedyRest(values, supply, i, remaining)
  }

  lemma PausedStart(values: seq<nat>, supply: seq<nat>, target: int)
    requires |supply| == |values|
    requires forall j :: 0 <= j < |values| ==> values[j] > 0
    ensures Paused(values, supply, target, |values|, target, [])
  {
    var g := Greedy(values, supply, |values|, target);
    assert g + [] == g;
  }

  lemma PausedStep(values: seq<nat>, supply: seq<nat>, target: int, i: nat, remaining: int, done: seq<nat>)
    requires |supply| == |values| && 0 < i <= |values|
    requires forall j :: 0 <= j < |values| ==> values[j] > 0
    requires Paused(values, supply, target, i, remaining, done)
    ensures var g := Take(values[i - 1], supply[i - 1], remaining);
            Paused(values, supply, target, i - 1, remaining - g * values[i - 1], [g] + done)
  {
    var g := Take(values[i - 1], supply[i - 1], remaining);
    var lower := Greedy(values, supply, i - 1, remaining - g * values[i - 1]);
    assert lower + [g] + done == lower + ([g] + done);
  }

  lemma PausedEnd(values: seq<nat>, supply: seq<nat>, target: int, remaining: int, done: seq<nat>)
    requires |supply| == |values|
    requires forall j :: 0 <= j < |values| ==> values[j] > 0
    requires Paused(values, supply, target, 0, remaining, done)
    ensures done == Greedy(values, supply, |values|, target)
    ensures remaining == target - Worth(values, done, |values|)
  {
    assert [] + done == done;
    GreedyRestIs(values, supply, |values|, target);
  }

  /** Worth and Coins look at the first n counts only. */
  lemma {:induction false} PrefixOnly(values: seq<nat>, a: seq<nat>, b: seq<nat>, n: nat)
    requires n <= |values| && n <= |a| && n <= |b|
    requires forall i :: 0 <= i < n ==> a[i] == b[i]
    ensures Worth(values, a, n) == Worth(values, b, n)
    ensures Coins(a, n) == Coins(b, n)
  {
    if n > 0 {
      PrefixOnly(values, a, b, n - 1);
    }
  }

  /** Removing one selection from another subtracts both value and number. */
  lemma {:induction false} Subtract(values: seq<nat>, a: seq<nat>, b: seq<nat>, c: seq<nat>, n: nat)
    requires n <= |values| && n <= |a| && n <= |b| && n <= |c|
    requires forall i :: 0 <= i < n ==> a[i] == b[i] + c[i]
    ensures Worth(values, a, n) == Worth(values, b, n) + Worth(values, c, n)
    ensures Coins(a, n) == Coins(b, n) + Coins(c, n)
  {
    if n > 0 {
      Subtract(values, a, b, c, n - 1);
      TimesPlus(b[n - 1], c[n - 1], values[n - 1]);
    }
  }

  lemma DivisorOfLarger(a: nat, b: nat)
    requires a > 0 && b > 0 && b % a == 0
    ensures a <= b
  {
  }

  lemma DividesTrans(d: int, a: nat, b: nat)
    requires a > 0 && b > 0 && b % a == 0 && d % b == 0
    ensures d % a == 0
  {
    var k, m := b / a, d / b;
    assert b == a * k && d == b * m;
    assert d == a * (k * m);
    MultipleMod(a, k * m);
  }

  lemma MultipleMod(a: nat, k: int)
    requires a > 0
    ensures (a * k) % a == 0
  {
    var q, r := (a * k) / a, (a * k) % a;
    assert a * k == a * q + r;
    assert a * (k - q) == r;
    if k - q >= 1 {
      TimesMonotone(1, k - q, a);
    } else if k - q <= -1 {
      TimesMonotone(k - q, -1, a);
    }
  }

  lemma MultipleMinus(d: int, a: nat, k: int)
    requires a > 0 && d % a == 0
    ensures (d - k * a) % a == 0
  {
    assert d == a * (d / a);
    assert d - k * a == a * (d / a - k);
    MultipleMod(a, d / a - k);
  }

  lemma SmallMultiple(d: nat, a: nat)
    requires a > 0 && d % a == 0 && d < a
    ensures d == 0
  {
  }

  /** Coins no larger than `top` number at least their worth divided by `top`. */
  lemma {:induction false} WorthAtMostCoins(values: seq<nat>, counts: seq<nat>, n: nat, top: nat)
    requires n <= |values| && n <= |counts|
    requires forall i :: 0 <= i < n ==> values[i] <= top
    ensures Worth(values, counts, n) <= Coins(counts, n) * top
  {
    if n > 0 {
      WorthAtMostCoins(values, counts, n - 1, top);
      TimesMonotone(values[n - 1], top, counts[n - 1]);
      TimesPlus(Coins(counts, n - 1), counts[n - 1], top);
    }
  }

  lemma {:induction false} ChainBelowTop(values: seq<nat>, n: nat)
    requires IsChain(values) && 0 < n <= |values|
    ensures forall i :: 0 <= i < n ==> values[i] <= values[n - 1]
  {
    if n > 1 {
      ChainBelowTop(values, n - 1);
      DivisorOfLarger(values[n - 2], values[n - 1]);
    }
  }

  /** Coins worth at least d, all dividing into d, contain a selection worth exactly d. */
  lemma {:induction false} ExactSubset(values: seq<nat>, counts: seq<nat>, n: nat, d: nat)
    returns (part: seq<nat>)
    requires IsChain(values) && n <= |values| && n <= |counts|
    requires n > 0 ==> d % values[n - 1] == 0
    requires d <= Worth(values, counts, n)
    ensures |part| == n && Within(part, counts, n) && Worth(values, part, n) == d
    decreases n
  {
    if n == 0 {
      part := [];
    } else {
      var v := values[n - 1];
      var a := Take(v, counts[n - 1], d);
      var rest := d - a * v;
      MultipleMinus(d, v, a);
      var lower;
      if a == counts[n - 1] {
        if n > 1 {
          DividesTrans(rest, values[n - 2], v);
        }
        lower := ExactSubset(values, counts, n - 1, rest);
      } else {
        SmallMultiple(rest, v);
        lower := seq(n - 1, i => 0);
        AllZero(values, lower, n - 1);
      }
      part := lower + [a];
      PrefixOnly(values, lower, part, n - 1);
    }
  }

  lemma {:induction false} AllZero(values: seq<nat>, counts: seq<nat>, n: nat)
    requires n <= |values| && n <= |counts|
    requires forall i :: 0 <= i < n ==> counts[i] == 0
    ensures Worth(values, counts, n) == 0 && Coins(counts, n) == 0
  {
    if n > 0 {
      AllZero(values, counts, n - 1);
    }
  }

  /** No exact selection holds more of the largest coin than greedy takes. */
  lemma TakesMost(value: nat, available: nat, target: int, a: nat)
    requires value > 0 && a <= available && a * value <= target
    ensures a <= Take(value, available, target)
  {
    var g := Take(value, available, target);
    if g < a {
      assert 0 <= a * value;
      TimesMonotone(g + 1, a, value);
      TimesPlus(g, 1, value);
    }
  }

  /** The smaller coins of an exact selection cover what greedy takes beyond it in the largest coin. */
  lemma Surplus(values: seq<nat>, counts: seq<nat>, n: nat, g: nat, target: int) returns (part: seq<nat>)
    requires IsChain(values) && 0 < n <= |values| && n <= |counts|
    requires Worth(values, counts, n) == target
    requires counts[n - 1] <= g && g * values[n - 1] <= target
    ensures |part| == n - 1 && Within(part, counts, n - 1)
    ensures Worth(values, part, n - 1) == g * values[n - 1] - counts[n - 1] * values[n - 1]
    ensures g - counts[n - 1] <= Coins(part, n - 1)
  {
    var v, a := values[n - 1], counts[n - 1];
    var d := (g - a) * v;
    TimesPlus(g - a, a, v);
    MultipleMod(v, g - a);
    if n > 1 {
      DividesTrans(d, values[n - 2], v);
    }
    part := ExactSubset(values, counts, n - 1, d);
    ChainBelowTop(values, n);
    WorthAtMostCoins(values, part, n - 1, v);
    TimesCancel(g - a, Coins(part, n - 1), v);
  }

  /** Any exact selection can be changed into one that takes the greedy number of the largest coin,
      without using more coins. */
  lemma ExchangeTop(values: seq<nat>, supply: seq<nat>, counts: seq<nat>, n: nat, target: int) returns (better: seq<nat>)
    requires IsChain(values) && 0 < n <= |values| && Within(counts, supply, n)
    requires Worth(values, counts, n) == target
    ensures var g := Take(values[n - 1], supply[n - 1], target);
            && |better| == n - 1 && Within(better, supply, n - 1)
            && Worth(values, better, n - 1) == target - g * values[n - 1]
            && Coins(better, n - 1) + g <= Coins(counts, n)
  {
    var g := Take(values[n - 1], supply[n - 1], target);
    TakesMost(values[n - 1], supply[n - 1], target, counts[n - 1]);
    var part := Surplus(values, counts, n, g, target);
    better := seq(n - 1, i requires 0 <= i < n - 1 => counts[i] - part[i]);
    Subtract(values, counts, better, part, n - 1);
  }

  /** Greedy reaches every target that some selection within the supply reaches,
      and no exact selection uses fewer coins. */
  lemma {:induction false} GreedyExactAndMinimal(values: seq<nat>, supply: seq<nat>, counts: seq<nat>, n: nat, target: int)
    requires IsChain(values) && n <= |values| && Within(counts, supply, n)
    requires Worth(values, counts, n) == target
    ensures Worth(values, Greedy(values, supply, n, target), n) == target
    ensures Coins(Greedy(values, supply, n, target), n) <= Coins(counts, n)
    decreases n
  {
    if n > 0 {
      var better := ExchangeTop(values, supply, counts, n, target);
      var g := Take(values[n - 1], supply[n - 1], target);
      var rest := target - g * values[n - 1];
      GreedyExactAndMinimal(values, supply, better, n - 1, rest);
      var lower := Greedy(values, supply, n - 1, rest);
      PrefixOnly(values, lower, lower + [g], n - 1);
    }
  }

  /** Changing one count changes value and number accordingly. */
  lemma {:induction false} UpdateCount(values: seq<nat>, counts: seq<nat>, n: nat, i: nat, x: nat)
    requires n <= |values| && n <= |counts| && i < n
    ensures Worth(values, counts[i := x], n) == Worth(values, counts, n) + x * values[i] - counts[i] * values[i]
    ensures Coins(counts[i := x], n) == Coins(counts, n) + x - counts[i]
  {
    if i == n - 1 {
      PrefixOnly(values, counts, counts[i := x], n - 1);
    } else {
      UpdateCount(values, counts, n - 1, i, x);
    }
  }

  /** A smaller selection is worth no more. */
  lemma {:induction false} WorthMonotone(values: seq<nat>, a: seq<nat>, b: seq<nat>, n: nat)
    requires n <= |values| && Within(a, b, n)
    ensures Worth(values, a, n) <= Worth(values, b, n)
  {
    if n > 0 {
      WorthMonotone(values, a, b, n - 1);
      TimesMonotone(a[n - 1], b[n - 1], values[n - 1]);
    }
  }

  /** Greedy never takes more than the target. */
  lemma {:induction false} GreedyAtMost(values: seq<nat>, supply: seq<nat>, n: nat, target: int)
    requires n <= |values| && n <= |supply|
    requires forall i :: 0 <= i < |values| ==> values[i] > 0
    ensures target >= 0 ==> Worth(values, Greedy(values, supply, n, target), n) <= target
    ensures target <= 0 ==> Worth(values, Greedy(values, supply, n, target), n) == 0
    ensures target <= 0 ==> Coins(Greedy(values, supply, n, target), n) == 0
    decreases n
  {
    if n > 0 {
      var g := Take(values[n - 1], supply[n - 1], target);
      TimesMonotone(0, g, values[n - 1]);
      var rest := target - g * values[n - 1];
      GreedyAtMost(values, supply, n - 1, rest);
      var lower := Greedy(values, supply, n - 1, rest);
      PrefixOnly(values, lower, lower + [g], n - 1);
    }
  }

  /** Greedy is the largest-first selection: any other selection worth at most the target has fewer coins
      at the largest value at which the two differ. */
  lemma {:induction false} GreedyIsLargestFirst(values: seq<nat>, supply: seq<nat>, other: seq<nat>, n: nat, target: int) returns (at: nat)
    requires n <= |values| && Within(other, supply, n) && (forall i :: 0 <= i < |values| ==> values[i] > 0)
    requires Worth(values, other, n) <= target && other[..n] != Greedy(values, supply, n, target)
    ensures var greedy := Greedy(values, supply, n, target);
      at < n && other[at] < greedy[at] && forall i :: at < i < n ==> other[i] == greedy[i]
    decreases n
  {
    at := 0;
    if n > 0 {
      var v := values[n - 1];
      var g := Take(v, supply[n - 1], target);
      TakesMost(v, supply[n - 1], target, other[n - 1]);
      if other[n - 1] == g {
        assert other[..n] == other[..n - 1] + [g];
        at := GreedyIsLargestFirst(values, supply, other, n - 1, target - g * v);
      } else {
        at := n - 1;
      }
    }
  }

  lemma {:induction false} ChainAscends(values: seq<nat>, i: nat, j: nat)
    requires IsChain(values) && i <= j < |values|
    ensures values[i] <= values[j]
    decreases j
  {
    if i < j {
      ChainAscends(values, i, j - 1);
      assert values[j] % values[j - 1] == 0;
      DivisorOfLarger(values[j - 1], values[j]);
    }
  }

  /** All the coins above position j, none below it. */
  ghost predicate TopHeavy(counts: seq<nat>, supply: seq<nat>, n: nat, j: nat) {
    && Within(counts, supply, n) && j < n
    && (forall i :: j < i < n ==> counts[i] == supply[i])
    && forall i :: 0 <= i < j ==> counts[i] == 0
  }

  /** Every coin such a selection has more than another one makes it worth at least the coin at j more. */
  lemma {:induction false} TopHeavyWorth(values: seq<nat>, supply: seq<nat>, top: seq<nat>, other: seq<nat>, n: nat, j: nat, m: nat)
    requires IsChain(values) && m <= n <= |values| && TopHeavy(top, supply, n, j) && Within(other, supply, n)
    decreases m
    ensures Worth(values, top, m) - Worth(values, other, m) >= (Coins(top, m) - Coins(other, m)) * values[j]
  {
    hide IsChain;
    if m > 0 {
      var i := m - 1;
      TopHeavyWorth(values, supply, top, other, n, j, i);
      if i <= j {
        ChainAscends(values, i, j);
      } else {
        ChainAscends(values, j, i);
      }
      MoreAtTop(top[i], other[i], values[i], values[j], i < j || (i == j && top[i] < other[i]));
      var a: int, b: int := top[i], other[i];
      TimesPlus(Coins(top, i) - Coins(other, i), a - b, values[j]);
    }
  }

  lemma MoreAtTop(a: nat, b: nat, v: nat, w: nat, below: bool)
    requires if below then a <= b && v <= w else a >= b && v >= w
    ensures a * v - b * v >= (a - b) * w
  {
    if below {
      TimesMonotone(v, w, b - a);
    } else {
      TimesMonotone(w, v, a - b);
    }
  }

  /** A top-heavy selection that needs its lowest coin to cover a target covers it with the fewest coins. */
  lemma FewestCoins(values: seq<nat>, supply: seq<nat>, top: seq<nat>, other: seq<nat>, n: nat, j: nat, target: int)
    requires IsChain(values) && n <= |values| && TopHeavy(top, supply, n, j) && Within(other, supply, n)
    requires Worth(values, top, n) - values[j] < target <= Worth(values, other, n)
    ensures Coins(top, n) <= Coins(other, n)
  {
    TopHeavyWorth(values, supply, top, other, n, j, n);
    var more := Coins(top, n) - Coins(other, n);
    if more > 0 {
      TimesMonotone(1, more, values[j]);
    }
  }
}
