/** The selection of blocks for the next stake modifier, src/kernel.cpp. The candidates are given
    sorted; the hash is a parameter. */
module StakeModifier {
  import opened Basics

  datatype Hash = Hash(n: nat)

  /** A candidate with what its block index entry says: its time and hash, its height, whether it is
      proof of stake, and its entropy bit. */
  datatype Candidate = Candidate(time: int, hash: Hash, height: nat, stake: bool, entropy: bool)

  const MODIFIER_INTERVAL := 60
  const MODIFIER_INTERVAL_RATIO := 3

  /** GetStakeModifierSelectionIntervalSection. */
  function Section(n: nat): (a: nat)
    requires n < 64
  {
    MODIFIER_INTERVAL * 63 / (63 + (63 - n) * (MODIFIER_INTERVAL_RATIO - 1))
  }

  /** The stop time of a round: every round adds its section. */
  function Stop(start: int, round: nat): int
    requires round < 64
  {
    Section(round) + if round == 0 then start else Stop(start, round - 1)
  }

  /** The hash of a block and the previous modifier, and the height from which the block's own hash
      is hashed for proof of stake too. */
  datatype Env = Env(mix: (int, nat) -> nat, upgradeHeight: nat, indexed: Hash -> bool)

  const TWO_TO_32 := 0x1_0000_0000

  /** The selection hash: proof of stake is favoured by a factor of 2^32. */
  function Selection(env: Env, c: Candidate, v2: bool, modifier: nat): nat {
    var proof := if v2 || !c.stake then c.hash.n else 0;
    var h := env.mix(proof, modifier);
    if c.stake then h / TWO_TO_32 else h
  }

  /** Sorted by time and then hash, as pairs are. */
  predicate Sorted(c: seq<Candidate>) {
    forall i, j :: 0 <= i < j < |c| ==> c[i].time < c[j].time || (c[i].time == c[j].time && c[i].hash.n <= c[j].hash.n)
  }

  predicate Open(c: seq<Candidate>, chosen: set<Hash>, i: nat) {
    i < |c| && c[i].hash !in chosen
  }

  /** Open and not later than the stop time. */
  predicate Eligible(c: seq<Candidate>, chosen: set<Hash>, stop: int, i: nat) {
    Open(c, chosen, i) && c[i].time <= stop
  }

  function Rank(env: Env, c: seq<Candidate>, modifier: nat, i: nat): nat
    requires i < |c|
  {
    Selection(env, c[i], c[0].height >= env.upgradeHeight, modifier)
  }

  /** The block a round takes: the eligible one with the least selection hash, the first of equals;
      when none is eligible the first that is open. */
  ghost predicate IsChoice(env: Env, c: seq<Candidate>, chosen: set<Hash>, stop: int, modifier: nat, i: nat) {
    && Open(c, chosen, i)
    && (forall j :: 0 <= j < |c| && Eligible(c, chosen, stop, j) ==>
          && Eligible(c, chosen, stop, i)
          && Rank(env, c, modifier, i) <= Rank(env, c, modifier, j)
          && (j < i ==> Rank(env, c, modifier, i) < Rank(env, c, modifier, j)))
    && (!Eligible(c, chosen, stop, i) ==> forall j :: 0 <= j < i ==> !Open(c, chosen, j))
  }

  /** What is mixed with the previous modifier: the block's own hash, but for proof of stake nothing while
      the first candidate lies below the upgrade height. */
  function MixOf(env: Env, c: seq<Candidate>, modifier: nat, i: nat): nat
    requires i < |c|
  {
    env.mix(if c[i].stake && c[0].height < env.upgradeHeight then 0 else c[i].hash.n, modifier)
  }

  /** Is candidate i preferred to candidate j? Within a kind the smaller mix is, without its last 32 bits
      for proof of stake; between the kinds the mix of proof of stake is divided by 2^32. */
  predicate Preferred(env: Env, c: seq<Candidate>, modifier: nat, i: nat, j: nat)
    requires i < |c| && j < |c|
  {
    var a, b := MixOf(env, c, modifier, i), MixOf(env, c, modifier, j);
    var strictly := j < i;
    if c[i].stake && c[j].stake then (if strictly then a / 4294967296 < b / 4294967296 else a / 4294967296 <= b / 4294967296)
    else if c[i].stake then (if strictly then a / 4294967296 < b else a / 4294967296 <= b)
    else if c[j].stake then (if strictly then a < b / 4294967296 else a <= b / 4294967296)
    else if strictly then a < b else a <= b
  }

  /** The choice of a round in terms of the mixes alone. */
  lemma ChoiceByMix(env: Env, c: seq<Candidate>, chosen: set<Hash>, stop: int, modifier: nat, i: nat)
    ensures IsChoice(env, c, chosen, stop, modifier, i) <==>
      && i < |c| && c[i].hash !in chosen
      && if c[i].time <= stop
         then forall j :: 0 <= j < |c| && c[j].hash !in chosen && c[j].time <= stop ==> Preferred(env, c, modifier, i, j)
         else (forall j :: 0 <= j < |c| && c[j].hash !in chosen ==> c[j].time > stop) && forall j :: 0 <= j < i ==> c[j].hash in chosen
  {
    if i < |c| {
      forall j: nat | j < |c|
        ensures Preferred(env, c, modifier, i, j) <==>
          Rank(env, c, modifier, i) <= Rank(env, c, modifier, j) && (j < i ==> Rank(env, c, modifier, i) < Rank(env, c, modifier, j))
      {
        RankIs(env, c, modifier, i);
        RankIs(env, c, modifier, j);
      }
      ChoiceParts(env, c, chosen, stop, modifier, i);
    }
  }

  lemma RankIs(env: Env, c: seq<Candidate>, modifier: nat, i: nat)
    requires i < |c|
    ensures Rank(env, c, modifier, i) == if c[i].stake then MixOf(env, c, modifier, i) / 4294967296 else MixOf(env, c, modifier, i)
  {
  }

  lemma ChoiceParts(env: Env, c: seq<Candidate>, chosen: set<Hash>, stop: int, modifier: nat, i: nat)
    requires i < |c|
    requires forall j :: 0 <= j < |c| ==> (Preferred(env, c, modifier, i, j) <==>
      Rank(env, c, modifier, i) <= Rank(env, c, modifier, j) && (j < i ==> Rank(env, c, modifier, i) < Rank(env, c, modifier, j)))
    ensures IsChoice(env, c, chosen, stop, modifier, i) <==>
      && c[i].hash !in chosen
      && if c[i].time <= stop
         then forall j :: 0 <= j < |c| && c[j].hash !in chosen && c[j].time <= stop ==> Preferred(env, c, modifier, i, j)
         else (forall j :: 0 <= j < |c| && c[j].hash !in chosen ==> c[j].time > stop) && forall j :: 0 <= j < i ==> c[j].hash in chosen
  {
    hide Rank, Preferred;
    if IsChoice(env, c, chosen, stop, modifier, i) && c[i].time > stop {
      forall j | 0 <= j < |c| && c[j].hash !in chosen ensures c[j].time > stop {
        assert Eligible(c, chosen, stop, j) ==> Eligible(c, chosen, stop, i);
      }
      forall j | 0 <= j < i ensures c[j].hash in chosen {
        assert !Open(c, chosen, j);
      }
    }
    if IsChoice(env, c, chosen, stop, modifier, i) && c[i].time <= stop {
      forall j | 0 <= j < |c| && c[j].hash !in chosen && c[j].time <= stop ensures Preferred(env, c, modifier, i, j) {
        assert Eligible(c, chosen, stop, j);
      }
    }
  }

  /** There is at most one such block. */
  lemma ChoiceUnique(env: Env, c: seq<Candidate>, chosen: set<Hash>, stop: int, modifier: nat, i: nat, j: nat)
    requires IsChoice(env, c, chosen, stop, modifier, i) && IsChoice(env, c, chosen, stop, modifier, j)
    ensures i == j
  {
    assert Eligible(c, chosen, stop, i) <==> Eligible(c, chosen, stop, j);
    assert Open(c, chosen, i) && Open(c, chosen, j);
    assert !(i < j) && !(j < i);
  }

  /** SelectBlockFromCandidates; None when nothing is selected or a candidate is not indexed. */
  method SelectBlock(env: Env, c: seq<Candidate>, chosen: set<Hash>, stop: int, modifier: nat) returns (selected: Option<nat>)
    requires Sorted(c)
    ensures (forall i :: 0 <= i < |c| ==> env.indexed(c[i].hash)) ==> (selected.Some? <==> exists i :: Open(c, chosen, i))
    ensures selected.Some? ==> IsChoice(env, c, chosen, stop, modifier, selected.value)
  {
    var first, v2, hashBest := true, false, 0;
    selected := None;
    var k := 0;
    while k < |c|
      invariant 0 <= k <= |c|
      invariant if first then k == 0 else k > 0 && v2 == (c[0].height >= env.upgradeHeight)
      invariant selected.None? ==> forall j :: 0 <= j < k ==> !Open(c, chosen, j)
      invariant selected.Some? && !Eligible(c, chosen, stop, selected.value) ==>
        forall j :: 0 <= j < k && Open(c, chosen, j) ==> j == selected.value
      invariant selected.Some? ==>
        && selected.value < k && Open(c, chosen, selected.value) && hashBest == Rank(env, c, modifier, selected.value)
        && (forall j :: 0 <= j < k && Open(c, chosen, j) ==> j == selected.value || Eligible(c, chosen, stop, j))
        && (forall j :: 0 <= j < k && Open(c, chosen, j) ==>
              hashBest <= Rank(env, c, modifier, j) && (j < selected.value ==> hashBest < Rank(env, c, modifier, j)))
    {
      if !env.indexed(c[k].hash) {
        return None;
      }
      if selected.Some? && c[k].time > stop {
        break;
      }
      if first {
        v2 := c[k].height >= env.upgradeHeight;
        first := false;
      }
      if c[k].hash !in chosen {
        var hashSelection := Selection(env, c[k], v2, modifier);
        if selected.Some? && hashSelection < hashBest {
          hashBest := hashSelection;
          selected := Some(k);
        } else if selected.None? {
          hashBest := hashSelection;
          selected := Some(k);
        }
      }
      k := k + 1;
    }
  }

  /** The hashes of the picked candidates. */
  function HashesOf(c: seq<Candidate>, picks: seq<nat>): set<Hash> {
    set k | 0 <= k < |picks| && picks[k] < |c| :: c[picks[k]].hash
  }

  predicate AllIn(c: seq<Candidate>, picks: seq<nat>) {
    forall k :: 0 <= k < |picks| ==> picks[k] < |c|
  }

  /** One pick for each round, each the choice among what the rounds before left. */
  ghost predicate IsSelection(env: Env, c: seq<Candidate>, start: int, modifier: nat, picks: seq<nat>) {
    && |picks| <= 64 && AllIn(c, picks)
    && forall r :: 0 <= r < |picks| ==> IsChoice(env, c, HashesOf(c, picks[..r]), Stop(start, r), modifier, picks[r])
  }

  predicate Distinct(c: seq<Candidate>) {
    forall i, j :: 0 <= i < j < |c| ==> c[i].hash != c[j].hash
  }

  /** No block is picked twice. */
  lemma PicksDistinct(env: Env, c: seq<Candidate>, start: int, modifier: nat, picks: seq<nat>)
    requires IsSelection(env, c, start, modifier, picks)
    ensures forall q, r :: 0 <= q < r < |picks| ==> picks[q] != picks[r] && c[picks[q]].hash != c[picks[r]].hash
  {
    forall q, r | 0 <= q < r < |picks| ensures picks[q] != picks[r] && c[picks[q]].hash != c[picks[r]].hash {
      assert picks[..r][q] == picks[q];
      assert c[picks[q]].hash in HashesOf(c, picks[..r]);
    }
  }

  /** Every node picks the same blocks in the same order. */
  lemma {:induction false} SelectionUnique(env: Env, c: seq<Candidate>, start: int, modifier: nat, a: seq<nat>, b: seq<nat>)
    requires IsSelection(env, c, start, modifier, a) && IsSelection(env, c, start, modifier, b) && |a| == |b|
    ensures a == b
    decreases |a|
  {
    if a != [] {
      var n := |a| - 1;
      SelectionPrefix(env, c, start, modifier, a, n);
      SelectionPrefix(env, c, start, modifier, b, n);
      SelectionUnique(env, c, start, modifier, a[..n], b[..n]);
      ChoiceUnique(env, c, HashesOf(c, a[..n]), Stop(start, n), modifier, a[n], b[n]);
      assert a == a[..n] + [a[n]] && b == b[..n] + [b[n]];
    }
  }

  lemma SelectionPrefix(env: Env, c: seq<Candidate>, start: int, modifier: nat, a: seq<nat>, n: nat)
    requires IsSelection(env, c, start, modifier, a) && n <= |a|
    ensures IsSelection(env, c, start, modifier, a[..n])
  {
    forall r | 0 <= r < n
      ensures IsChoice(env, c, HashesOf(c, a[..n][..r]), Stop(start, r), modifier, a[..n][r])
    {
      assert a[..n][..r] == a[..r];
    }
  }

  /** Bit r of the new modifier is the entropy bit of pick r. */
  function Bits(c: seq<Candidate>, picks: seq<nat>): (b: nat)
    requires AllIn(c, picks)
    ensures b < Pow(2, |picks|)
  {
    if picks == [] then 0
    else
      var n := |picks| - 1;
      Bits(c, picks[..n]) + if c[picks[n]].entropy then Pow(2, n) else 0
  }

  lemma {:induction false} BitsAt(c: seq<Candidate>, picks: seq<nat>, r: nat)
    requires AllIn(c, picks) && r < |picks|
    ensures Bits(c, picks) / Pow(2, r) % 2 == if c[picks[r]].entropy then 1 else 0
    decreases |picks|
  {
    var n := |picks| - 1;
    var low := Bits(c, picks[..n]);
    if r == n {
      TopBit(low, Pow(2, n), c[picks[n]].entropy);
    } else {
      BitsAt(c, picks[..n], r);
      PowSplit(r, n);
      LowerBit(low, Pow(2, r), Pow(2, n - r - 1), c[picks[n]].entropy);
    }
  }

  lemma {:induction false} PowSplit(r: nat, n: nat)
    requires r < n
    ensures Pow(2, n) == 2 * Pow(2, n - r - 1) * Pow(2, r)
    decreases n
  {
    if r < n - 1 {
      PowSplit(r, n - 1);
      assert Pow(2, n - r - 1) == 2 * Pow(2, n - r - 2);
      Associate(2, 2 * Pow(2, n - r - 2), Pow(2, r));
    } else {
      assert Pow(2, 0) == 1;
    }
  }

  lemma TopBit(low: nat, p: nat, bit: bool)
    requires low < p
    ensures (low + if bit then p else 0) / p % 2 == if bit then 1 else 0
  {
    Divide(if bit then 1 else 0, p, low);
  }

  lemma LowerBit(low: nat, p: nat, q: nat, bit: bool)
    requires p > 0
    ensures (low + if bit then 2 * q * p else 0) / p % 2 == low / p % 2
  {
    DivMod(low, p);
    DivideShrinks(low, p);
    if bit {
      TimesPlus(low / p, 2 * q, p);
      Divide(low / p + 2 * q, p, low % p);
    }
  }

  /** The interval sections grow from a third of the modifier interval to the whole of it. */
  lemma SectionsGrow(m: nat, n: nat)
    requires m <= n < 64
    ensures 20 == Section(0) <= Section(m) <= Section(n) <= Section(63) == 60
    ensures Section(n) * (63 + 2 * (63 - n)) <= 60 * 63 < (Section(n) + 1) * (63 + 2 * (63 - n))
  {
    Quotient(3780, 63 + 2 * (63 - n));
    SectionStep(0, m);
    SectionStep(m, n);
    SectionStep(n, 63);
  }

  lemma SectionStep(m: nat, n: nat)
    requires m <= n < 64
    ensures Section(m) <= Section(n)
  {
    SmallerQuotient(3780, 63 + (63 - n) * 2, 63 + (63 - m) * 2);
  }

  lemma SmallerQuotient(x: nat, a: nat, b: nat)
    requires 0 < a <= b
    ensures x / b <= x / a
  {
    Quotient(x, a);
    Quotient(x, b);
    DivideShrinks(x, b);
    if x / b > x / a {
      ProductMonotone(x / b, x / b, a, b);
      TimesMonotone(x / a + 1, x / b, a);
    }
  }

  /** While fewer are picked than there are candidates some candidate is open. */
  lemma SomeOpen(c: seq<Candidate>, picks: seq<nat>)
    requires Distinct(c) && |picks| < |c| && AllIn(c, picks)
    ensures exists i :: Open(c, HashesOf(c, picks), i)
  {
    var i := Unused(|c|, picks);
    forall k | 0 <= k < |picks| ensures c[picks[k]].hash != c[i].hash {
      assert picks[k] != i;
    }
    assert Open(c, HashesOf(c, picks), i);
  }

  /** A number below n that is not among fewer than n. */
  lemma {:induction false} Unused(n: nat, picks: seq<nat>) returns (i: nat)
    requires |picks| < n
    ensures i < n && i !in picks
  {
    if picks == [] || n - 1 !in picks {
      i := n - 1;
    } else {
      var k :| 0 <= k < |picks| && picks[k] == n - 1;
      var less := picks[..k] + picks[k + 1..];
      i := Unused(n - 1, less);
      forall j | 0 <= j < |picks| ensures picks[j] != i {
        if j < k {
          assert picks[j] == less[j];
        } else if j > k {
          assert picks[j] == less[j - 1];
        }
      }
    }
  }

  /** The selection rounds of ComputeNextStakeModifier: with every candidate indexed they never
      fail, and pick one block for each round. */
  method SelectRounds(env: Env, c: seq<Candidate>, start: int, modifier: nat) returns (result: Option<nat>, picks: seq<nat>)
    requires Sorted(c) && Distinct(c)
    ensures (forall i :: 0 <= i < |c| ==> env.indexed(c[i].hash)) ==> result.Some?
    ensures result.Some? ==>
      && |picks| == (if |c| < 64 then |c| else 64)
      && AllIn(c, picks) && IsSelection(env, c, start, modifier, picks)
      && result.value == Bits(c, picks) < Pow(2, 64)
  {
    hide IsChoice, Pow, Section, IsSelection, HashesOf, Bits, AllIn, Stop, Sorted, Distinct;
    NothingPicked(env, c, start, modifier);
    picks := [];
    var modifierNew, stop, selected := 0, start, {};
    var weight := 1;
    var round := 0;
    while round < 64 && round < |c|
      invariant 0 <= round <= 64 && round <= |c| && |picks| == round
      invariant AllIn(c, picks) && IsSelection(env, c, start, modifier, picks)
      invariant stop == if round == 0 then start else Stop(start, round - 1)
      invariant selected == HashesOf(c, picks)
      invariant modifierNew == Bits(c, picks) && weight == Pow(2, round)
    {
      SomeOpen(c, picks);
      StopStep(start, round);
      stop := stop + Section(round);
      var s := SelectBlock(env, c, selected, stop, modifier);
      if s.None? {
        return None, picks;
      }
      var p := s.value;
      Extend(env, c, start, modifier, picks, p);
      modifierNew := modifierNew + if c[p].entropy then weight else 0;
      selected := selected + {c[p].hash};
      picks := picks + [p];
      weight := 2 * weight;
      round := round + 1;
    }
    PowMonotone(2, |picks|, 64);
    return Some(modifierNew), picks;
  }

  lemma NothingPicked(env: Env, c: seq<Candidate>, start: int, modifier: nat)
    ensures AllIn(c, []) && IsSelection(env, c, start, modifier, []) && HashesOf(c, []) == {}
    ensures Bits(c, []) == 0 && Pow(2, 0) == 1
  {
  }

  lemma StopStep(start: int, round: nat)
    requires round < 64
    ensures Stop(start, round) == Section(round) + if round == 0 then start else Stop(start, round - 1)
  {
  }

  lemma ChoiceIn(env: Env, c: seq<Candidate>, chosen: set<Hash>, stop: int, modifier: nat, i: nat)
    requires IsChoice(env, c, chosen, stop, modifier, i)
    ensures i < |c|
  {
  }

  /** One more pick: the choice of its round, its hash, and its bit. */
  lemma Extend(env: Env, c: seq<Candidate>, start: int, modifier: nat, picks: seq<nat>, p: nat)
    requires AllIn(c, picks) && IsSelection(env, c, start, modifier, picks) && |picks| < 64
    requires IsChoice(env, c, HashesOf(c, picks), Stop(start, |picks|), modifier, p)
    ensures p < |c| && AllIn(c, picks + [p]) && IsSelection(env, c, start, modifier, picks + [p])
    ensures HashesOf(c, picks + [p]) == HashesOf(c, picks) + {c[p].hash}
    ensures Bits(c, picks + [p]) == Bits(c, picks) + if c[p].entropy then Pow(2, |picks|) else 0
    ensures Pow(2, |picks| + 1) == 2 * Pow(2, |picks|)
  {
    hide IsChoice, IsSelection, HashesOf, Bits, Stop;
    ChoiceIn(env, c, HashesOf(c, picks), Stop(start, |picks|), modifier, p);
    ExtendHashes(c, picks, p);
    ExtendBits(c, picks, p);
    ExtendSelection(env, c, start, modifier, picks, p);
  }

  lemma ExtendHashes(c: seq<Candidate>, picks: seq<nat>, p: nat)
    requires p < |c|
    ensures HashesOf(c, picks + [p]) == HashesOf(c, picks) + {c[p].hash}
  {
    var more := picks + [p];
    assert more[|picks|] == p && forall k :: 0 <= k < |picks| ==> more[k] == picks[k];
  }

  lemma ExtendBits(c: seq<Candidate>, picks: seq<nat>, p: nat)
    requires AllIn(c, picks) && p < |c|
    ensures AllIn(c, picks + [p])
    ensures Bits(c, picks + [p]) == Bits(c, picks) + if c[p].entropy then Pow(2, |picks|) else 0
  {
    hide Pow;
    assert (picks + [p])[..|picks|] == picks;
  }

  lemma ExtendSelection(env: Env, c: seq<Candidate>, start: int, modifier: nat, picks: seq<nat>, p: nat)
    requires IsSelection(env, c, start, modifier, picks) && |picks| < 64 && p < |c|
    requires IsChoice(env, c, HashesOf(c, picks), Stop(start, |picks|), modifier, p)
    ensures IsSelection(env, c, start, modifier, picks + [p])
  {
    hide IsChoice, Stop, HashesOf;
    var more := picks + [p];
    assert more[..|picks|] == picks;
    forall r | 0 <= r < |more| ensures IsChoice(env, c, HashesOf(c, more[..r]), Stop(start, r), modifier, more[r]) {
      assert r < |picks| ==> more[..r] == picks[..r];
    }
  }
}
