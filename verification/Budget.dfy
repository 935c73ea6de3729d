/** The monthly budget: its allocation, and the agreement of filling and checking: src/masternode-budget.cpp. */
module Budget {
  import opened Basics

  // ---------- Allocation ----------

  datatype Proposal = Proposal(id: nat, payee: nat, amount: int, start: int, end: int, valid: bool, established: bool,
                               yeas: int, nays: int)

  /** What a proposal must satisfy to be considered for the period. */
  predicate Eligible(p: Proposal, start: int, end: int, enabled: nat) {
    p.valid && p.start <= start && p.end >= end && p.yeas - p.nays > enabled / 10 && p.established
  }

  function Total(ps: seq<Proposal>): int {
    if ps == [] then 0 else Total(ps[..|ps| - 1]) + ps[|ps| - 1].amount
  }

  /** The proposals allotted their amount, in the order of their votes. */
  function Allotted(ranked: seq<Proposal>, start: int, end: int, enabled: nat, budget: int): (r: seq<Proposal>)
    decreases |ranked|
  {
    if ranked == [] then []
    else
      var n := |ranked| - 1;
      var before, p := Allotted(ranked[..n], start, end, enabled, budget), ranked[n];
      if Eligible(p, start, end, enabled) && p.amount + Total(before) <= budget then before + [p] else before
  }

  /** The amounts recorded: an eligible proposal gets its amount or zero, the others keep theirs. */
  function Amounts(ranked: seq<Proposal>, start: int, end: int, enabled: nat, budget: int, previous: map<nat, int>): map<nat, int>
    decreases |ranked|
  {
    if ranked == [] then previous
    else
      var n := |ranked| - 1;
      var p := ranked[n];
      var before := Amounts(ranked[..n], start, end, enabled, budget, previous);
      if !Eligible(p, start, end, enabled) then before
      else before[p.id := if p.amount + Total(Allotted(ranked[..n], start, end, enabled, budget)) <= budget then p.amount else 0]
  }

  /** One proposal further down the list. */
  lemma AllottedStep(ranked: seq<Proposal>, start: int, end: int, enabled: nat, budget: int, previous: map<nat, int>, i: nat)
    requires i < |ranked|
    ensures var p, before := ranked[i], Allotted(ranked[..i], start, end, enabled, budget);
            var amounts := Amounts(ranked[..i], start, end, enabled, budget, previous);
            var fits := p.amount + Total(before) <= budget;
      && Allotted(ranked[..i + 1], start, end, enabled, budget)
         == (if Eligible(p, start, end, enabled) && fits then before + [p] else before)
      && Amounts(ranked[..i + 1], start, end, enabled, budget, previous)
         == (if Eligible(p, start, end, enabled) then amounts[p.id := if fits then p.amount else 0] else amounts)
  {
    hide Eligible, Total;
    assert ranked[..i + 1][..i] == ranked[..i];
  }

  lemma TotalStep(ps: seq<Proposal>, p: Proposal)
    ensures Total(ps + [p]) == Total(ps) + p.amount
  {
    assert (ps + [p])[..|ps|] == ps;
  }

  /** GetBudget on the proposals sorted by votes. */
  method GetBudget(ranked: seq<Proposal>, start: int, end: int, enabled: nat, budget: int, amounts: map<nat, int>)
    returns (ret: seq<Proposal>, allotted: map<nat, int>)
    ensures ret == Allotted(ranked, start, end, enabled, budget)
    ensures allotted == Amounts(ranked, start, end, enabled, budget, amounts)
  {
    ret, allotted := [], amounts;
    var given, i := 0, 0;
    NothingAllotted(start, end, enabled, budget, amounts);
    hide Allotted, Amounts, Total, Eligible;
    assert ranked[..0] == [];
    while i < |ranked|
      invariant 0 <= i <= |ranked|
      invariant ret == Allotted(ranked[..i], start, end, enabled, budget) && given == Total(ret)
      invariant allotted == Amounts(ranked[..i], start, end, enabled, budget, amounts)
    {
      var p := ranked[i];
      AllottedStep(ranked, start, end, enabled, budget, amounts, i);
      if Eligible(p, start, end, enabled) {
        if p.amount + given <= budget {
          TotalStep(ret, p);
          allotted := allotted[p.id := p.amount];
          given := given + p.amount;
          ret := ret + [p];
        } else {
          allotted := allotted[p.id := 0];
        }
      }
      i := i + 1;
    }
    assert ranked[..i] == ranked;
  }

  lemma NothingAllotted(start: int, end: int, enabled: nat, budget: int, previous: map<nat, int>)
    ensures Allotted([], start, end, enabled, budget) == [] && Total([]) == 0
    ensures Amounts([], start, end, enabled, budget, previous) == previous
  {
  }

  /** What is recorded for a returned proposal is its whole amount. */
  lemma {:induction false} ReturnedInFull(ranked: seq<Proposal>, start: int, end: int, enabled: nat, budget: int,
                                          previous: map<nat, int>, p: Proposal)
    requires forall i, j :: 0 <= i < j < |ranked| ==> ranked[i].id != ranked[j].id
    requires p in Allotted(ranked, start, end, enabled, budget)
    ensures var m := Amounts(ranked, start, end, enabled, budget, previous);
      p in ranked && p.id in m && m[p.id] == p.amount
    decreases |ranked|
  {
    var n := |ranked| - 1;
    if p in Allotted(ranked[..n], start, end, enabled, budget) {
      ReturnedInFull(ranked[..n], start, end, enabled, budget, previous, p);
      var k :| 0 <= k < n && ranked[k] == p;
      assert ranked[k].id != ranked[n].id;
    }
  }

  /** What is recorded for the others: zero for an eligible proposal that is left out, and what it had before
      for a proposal that is not eligible. */
  lemma {:induction false} RecordedAmounts(ranked: seq<Proposal>, start: int, end: int, enabled: nat, budget: int,
                                           previous: map<nat, int>, k: nat)
    requires forall i, j :: 0 <= i < j < |ranked| ==> ranked[i].id != ranked[j].id
    requires k < |ranked| && ranked[k] !in Allotted(ranked, start, end, enabled, budget)
    ensures var m, id := Amounts(ranked, start, end, enabled, budget, previous), ranked[k].id;
      if Eligible(ranked[k], start, end, enabled) then id in m && m[id] == 0
      else (id in m <==> id in previous) && (id in m ==> m[id] == previous[id])
    decreases |ranked|
  {
    hide Eligible, Total;
    var n := |ranked| - 1;
    if k < n {
      RecordedAmounts(ranked[..n], start, end, enabled, budget, previous, k);
      assert ranked[k].id != ranked[n].id;
    } else {
      OthersKeep(ranked[..n], start, end, enabled, budget, previous, ranked[n].id);
    }
  }

  lemma {:induction false} OthersKeep(ranked: seq<Proposal>, start: int, end: int, enabled: nat, budget: int, previous: map<nat, int>, id: nat)
    requires forall i :: 0 <= i < |ranked| ==> ranked[i].id != id
    ensures var m := Amounts(ranked, start, end, enabled, budget, previous);
      (id in m <==> id in previous) && (id in m ==> m[id] == previous[id])
    decreases |ranked|
  {
    hide Eligible, Total;
    if ranked != [] {
      OthersKeep(ranked[..|ranked| - 1], start, end, enabled, budget, previous, id);
    }
  }

  /** A finalized budget: one payment for each block from its start on. */
  datatype Payment = Payment(payee: nat, amount: int)
  datatype Finalized = Finalized(start: int, payments: seq<Payment>, votes: nat)

  function Payout(ps: seq<Payment>): int {
    if ps == [] then 0 else Payout(ps[..|ps| - 1]) + ps[|ps| - 1].amount
  }

  /** SubmitFinalBudget pays every proposal what it was allotted. */
  function Payments(ps: seq<Proposal>): (r: seq<Payment>)
    ensures |r| == |ps|
  {
    seq(|ps|, i requires 0 <= i < |ps| => Payment(ps[i].payee, ps[i].amount))
  }

  lemma {:induction false} PayoutIsTotal(ps: seq<Proposal>)
    ensures Payout(Payments(ps)) == Total(ps)
  {
    if ps != [] {
      PayoutIsTotal(ps[..|ps| - 1]);
      assert Payments(ps)[..|ps| - 1] == Payments(ps[..|ps| - 1]);
    }
  }

  /** The payments submitted never exceed the total budget, so they pass the payout check of the
      finalized budget. */
  lemma {:induction false} SubmittedWithinBudget(ranked: seq<Proposal>, start: int, end: int, enabled: nat, budget: int)
    requires budget >= 0
    ensures Payout(Payments(Allotted(ranked, start, end, enabled, budget))) <= budget
    decreases |ranked|
  {
    var r := Allotted(ranked, start, end, enabled, budget);
    PayoutIsTotal(r);
    if ranked != [] {
      var n := |ranked| - 1;
      SubmittedWithinBudget(ranked[..n], start, end, enabled, budget);
      var before := Allotted(ranked[..n], start, end, enabled, budget);
      PayoutIsTotal(before);
      assert (before + [ranked[n]])[..|before|] == before;
    }
  }

  /** The checks of CFinalizedBudget::IsValid on the number of payments. */
  predicate SizeOk(b: Finalized) {
    BlockEnd(b) - b.start <= MAX_PAYMENTS && |b.payments| <= MAX_PAYMENTS
  }

  const MAX_PAYMENTS := 100

  /** The submitted budget passes the checks on its payout and on its size exactly when no more than a
      hundred proposals are allotted their amount, which nothing in the allocation looks at. */
  lemma SubmittedPasses(ranked: seq<Proposal>, start: int, end: int, enabled: nat, budget: int, votes: nat)
    requires budget >= 0
    ensures var allotted := Allotted(ranked, start, end, enabled, budget);
            var b := Finalized(start, Payments(allotted), votes);
      SizeOk(b) && Payout(b.payments) <= budget <==> |allotted| <= MAX_PAYMENTS
  {
    hide Allotted, Payout;
    SubmittedWithinBudget(ranked, start, end, enabled, budget);
  }

  /** Eligible proposals that fit the budget together are all allotted, however many they are; */
  lemma {:induction false} AllFit(ranked: seq<Proposal>, start: int, end: int, enabled: nat, budget: int)
    requires forall p :: p in ranked ==> Eligible(p, start, end, enabled) && p.amount >= 0
    requires Total(ranked) <= budget
    ensures Allotted(ranked, start, end, enabled, budget) == ranked
    decreases |ranked|
  {
    if ranked != [] {
      var n := |ranked| - 1;
      assert ranked[n] in ranked && forall p :: p in ranked[..n] ==> p in ranked;
      AllFit(ranked[..n], start, end, enabled, budget);
      assert ranked[..n] + [ranked[n]] == ranked;
    }
  }

  /** so a hundred and one small ones make a budget that is submitted and then refused. */
  lemma TooManySubmitted(ranked: seq<Proposal>, start: int, end: int, enabled: nat, budget: int, votes: nat)
    requires |ranked| > MAX_PAYMENTS && forall p :: p in ranked ==> Eligible(p, start, end, enabled) && p.amount >= 0
    requires 0 <= Total(ranked) <= budget
    ensures !SizeOk(Finalized(start, Payments(Allotted(ranked, start, end, enabled, budget)), votes))
  {
    AllFit(ranked, start, end, enabled, budget);
  }

  /** What is allotted has run out its waiting time, lasts over the whole period, and has a surplus of yes
      votes of more than a tenth of the enabled masternodes. */
  lemma {:induction false} AllottedDeserve(ranked: seq<Proposal>, start: int, end: int, enabled: nat, budget: int, p: Proposal)
    requires p in Allotted(ranked, start, end, enabled, budget)
    ensures p in ranked && p.valid && p.established && p.start <= start && end <= p.end && 10 * (p.yeas - p.nays) > enabled
    decreases |ranked|
  {
    var n := |ranked| - 1;
    if p in Allotted(ranked[..n], start, end, enabled, budget) {
      AllottedDeserve(ranked[..n], start, end, enabled, budget, p);
    }
  }

  /** Those are all the conditions. */
  lemma EligibleIff(p: Proposal, start: int, end: int, enabled: nat)
    ensures Eligible(p, start, end, enabled) <==>
      p.valid && p.established && p.start <= start && end <= p.end && 10 * (p.yeas - p.nays) > enabled
  {
  }

  /** An eligible proposal is left out only when it did not fit beside those with more votes. */
  lemma {:induction false} LeftOutDidNotFit(ranked: seq<Proposal>, start: int, end: int, enabled: nat, budget: int, k: nat)
    requires k < |ranked| && Eligible(ranked[k], start, end, enabled)
    requires ranked[k] !in Allotted(ranked, start, end, enabled, budget)
    ensures ranked[k].amount + Total(Allotted(ranked[..k], start, end, enabled, budget)) > budget
    decreases |ranked|
  {
    var n := |ranked| - 1;
    if k < n {
      assert ranked[..n][..k] == ranked[..k];
      LeftOutDidNotFit(ranked[..n], start, end, enabled, budget, k);
    }
  }

  // ---------- Filling and checking ----------

  function BlockEnd(b: Finalized): int {
    b.start + |b.payments| - 1
  }

  predicate Covers(b: Finalized, h: int) {
    b.start <= h <= BlockEnd(b)
  }

  /** The most votes among the budgets that cover the height; zero when there are none. */
  function Highest(bs: seq<Finalized>, h: int): (v: nat)
    ensures forall k :: 0 <= k < |bs| && Covers(bs[k], h) ==> bs[k].votes <= v
    ensures v > 0 ==> exists k :: 0 <= k < |bs| && Covers(bs[k], h) && bs[k].votes == v
  {
    if bs == [] then 0
    else
      var n := |bs| - 1;
      var v := Highest(bs[..n], h);
      assert forall k :: 0 <= k < n ==> bs[..n][k] == bs[k];
      if bs[n].votes > v && Covers(bs[n], h) then bs[n].votes else v
  }

  /** The first of the budgets with the most votes that cover the height, if any has a vote. */
  function Winner(bs: seq<Finalized>, h: int): (w: Option<Finalized>)
    ensures w == None <==> Highest(bs, h) == 0
    ensures w.Some? ==> w.value in bs && Covers(w.value, h) && w.value.votes == Highest(bs, h)
  {
    if bs == [] then None
    else
      var n := |bs| - 1;
      if bs[n].votes > Highest(bs[..n], h) && Covers(bs[n], h) then Some(bs[n]) else Winner(bs[..n], h)
  }

  /** Before it in the list every covering budget has fewer votes. */
  lemma {:induction false} WinnerIsFirst(bs: seq<Finalized>, h: int) returns (k: nat)
    requires Winner(bs, h).Some?
    ensures k < |bs| && bs[k] == Winner(bs, h).value
    ensures forall j :: 0 <= j < k && Covers(bs[j], h) ==> bs[j].votes < bs[k].votes
    decreases |bs|
  {
    var n := |bs| - 1;
    if bs[n].votes > Highest(bs[..n], h) && Covers(bs[n], h) {
      k := n;
      assert forall j :: 0 <= j < n ==> bs[..n][j] == bs[j];
    } else {
      k := WinnerIsFirst(bs[..n], h);
      assert forall j :: 0 <= j < n ==> bs[..n][j] == bs[j];
    }
  }

  lemma WinnerStep(bs: seq<Finalized>, h: int, i: nat)
    requires i < |bs|
    ensures var takes := bs[i].votes > Highest(bs[..i], h) && Covers(bs[i], h);
      && Highest(bs[..i + 1], h) == (if takes then bs[i].votes else Highest(bs[..i], h))
      && Winner(bs[..i + 1], h) == (if takes then Some(bs[i]) else Winner(bs[..i], h))
  {
    assert bs[..i + 1][..i] == bs[..i];
  }

  lemma NoWinner(h: int)
    ensures Highest([], h) == 0 && Winner([], h) == None
  {
  }

  datatype Out = Out(script: nat, value: int)

  /** CFinalizedBudget::GetPayeeAndAmount: what the budget pays at a height, if anything. */
  method GetPayeeAndAmount(b: Finalized, h: int) returns (paid: Option<Out>)
    ensures forall k :: 0 <= k < |b.payments| && h == b.start + k ==> paid == Some(Out(b.payments[k].payee, b.payments[k].amount))
    ensures paid.None? <==> !Covers(b, h)
  {
    var i := h - b.start;
    if i < 0 || i > |b.payments| - 1 {
      return None;
    }
    return Some(Out(b.payments[i].payee, b.payments[i].amount));
  }

  /** The outputs of the block at a height: a proof-of-stake block gets the winner's payment after its
      outputs, a proof-of-work block after its reward. */
  function Filled(bs: seq<Finalized>, h: int, vout: seq<Out>, reward: int, stake: bool): seq<Out>
    requires !stake ==> vout != []
  {
    var w := Winner(bs, h);
    var own := if stake then vout else if w.None? then vout[0 := Out(vout[0].script, reward)] else [Out(vout[0].script, reward)];
    match w
    case None => own
    case Some(b) => own + [Out(b.payments[h - b.start].payee, b.payments[h - b.start].amount)]
  }

  /** FillBlockPayee at the next height. */
  method FillBlockPayee(bs: seq<Finalized>, h: int, vout: seq<Out>, blockValue: int, fees: int, stake: bool)
    returns (filled: seq<Out>)
    requires !stake ==> vout != []
    ensures filled == Filled(bs, h, vout, blockValue + fees, stake)
  {
    hide Winner, Highest;
    var highest, due, i := 0, Out(0, 0), 0;
    NoWinner(h);
    assert bs[..0] == [];
    while i < |bs|
      invariant 0 <= i <= |bs| && highest == Highest(bs[..i], h)
      invariant var w := Winner(bs[..i], h);
        if highest == 0 then w == None
        else w.Some? && due == Out(w.value.payments[h - w.value.start].payee, w.value.payments[h - w.value.start].amount)
    {
      WinnerStep(bs, h, i);
      if bs[i].votes > highest && h >= bs[i].start && h <= BlockEnd(bs[i]) {
        var paid := GetPayeeAndAmount(bs[i], h);
        assert h == bs[i].start + (h - bs[i].start);
        if paid.Some? {
          due := paid.value;
          highest := bs[i].votes;
        }
      }
      i := i + 1;
    }
    assert bs[..i] == bs;
    filled := vout;
    if stake {
      if highest > 0 {
        filled := filled + [due];
      }
    } else {
      filled := filled[0 := Out(filled[0].script, blockValue + fees)];
      if highest > 0 {
        filled := [filled[0], due];
      }
    }
  }

  /** CFinalizedBudget::IsTransactionValid: the budget has a payment for the height, and the transaction makes it. */
  ghost predicate PaysBudget(b: Finalized, vout: seq<Out>, h: int) {
    exists k :: 0 <= k < |b.payments| && h == b.start + k && Out(b.payments[k].payee, b.payments[k].amount) in vout
  }

  method PaysThisBudget(b: Finalized, vout: seq<Out>, h: int) returns (found: bool)
    ensures found <==> PaysBudget(b, vout, h)
  {
    var current := h - b.start;
    if current < 0 || current > |b.payments| - 1 {
      return false;
    }
    found := false;
    for i := 0 to |vout|
      invariant found <==> Out(b.payments[current].payee, b.payments[current].amount) in vout[..i]
    {
      assert vout[..i + 1] == vout[..i] + [vout[i]];
      if b.payments[current].payee == vout[i].script && b.payments[current].amount == vout[i].value {
        found := true;
      }
    }
    assert vout[..|vout|] == vout;
    assert h == b.start + current;
  }

  /** CBudgetManager::IsTransactionValid. */
  ghost predicate IsTransactionValid(bs: seq<Finalized>, vout: seq<Out>, h: int, enabled: nat) {
    && Highest(bs, h) >= enabled / 20
    && exists k :: 0 <= k < |bs| && bs[k].votes > Highest(bs, h) - enabled / 10 && PaysBudget(bs[k], vout, h)
  }

  method CheckTransaction(bs: seq<Finalized>, vout: seq<Out>, h: int, enabled: nat) returns (ok: bool)
    ensures ok <==> IsTransactionValid(bs, vout, h, enabled)
  {
    var highest, i := 0, 0;
    while i < |bs|
      invariant 0 <= i <= |bs| && highest == Highest(bs[..i], h)
    {
      assert bs[..i + 1][..i] == bs[..i];
      if bs[i].votes > highest && h >= bs[i].start && h <= BlockEnd(bs[i]) {
        highest := bs[i].votes;
      }
      i := i + 1;
    }
    assert bs[..i] == bs;
    if highest < enabled / 20 {
      return false;
    }
    i := 0;
    while i < |bs|
      invariant 0 <= i <= |bs|
      invariant forall k :: 0 <= k < i ==> !(bs[k].votes > highest - enabled / 10 && PaysBudget(bs[k], vout, h))
    {
      if bs[i].votes > highest - enabled / 10 {
        if h >= bs[i].start && h <= BlockEnd(bs[i]) {
          var found := PaysThisBudget(bs[i], vout, h);
          if found {
            return true;
          }
        }
      }
      i := i + 1;
    }
    return false;
  }

  /** At every height of its span a winning budget pays the payment that stands there in its list, in both
      block types, so each of its payments is made once and in order. */
  lemma PaidInOrder(bs: seq<Finalized>, b: Finalized, k: nat, vout: seq<Out>, reward: int, stake: bool)
    requires k < |b.payments| && Winner(bs, b.start + k) == Some(b) && (!stake ==> vout != [])
    ensures var filled := Filled(bs, b.start + k, vout, reward, stake);
      && filled != [] && filled[|filled| - 1] == Out(b.payments[k].payee, b.payments[k].amount)
      && filled[..|filled| - 1] == if stake then vout else [Out(vout[0].script, reward)]
  {
  }

  /** A transaction that makes the winner's payment for the height, whatever else it holds, is accepted on
      the same budgets exactly when at least ten masternodes are enabled and the winner's votes reach five
      percent of them; with fewer than ten enabled nothing is ever accepted. */
  lemma FilledIsAccepted(bs: seq<Finalized>, b: Finalized, k: nat, vout: seq<Out>, enabled: nat)
    requires k < |b.payments| && Winner(bs, b.start + k) == Some(b) && Out(b.payments[k].payee, b.payments[k].amount) in vout
    ensures IsTransactionValid(bs, vout, b.start + k, enabled) <==> enabled >= 10 && Highest(bs, b.start + k) >= enabled / 20
  {
    var i :| 0 <= i < |bs| && bs[i] == b;
    assert PaysBudget(bs[i], vout, b.start + k);
    if enabled >= 10 {
      assert bs[i].votes > Highest(bs, b.start + k) - enabled / 10;
    }
  }

  /** What is accepted makes the payment due at the height of some budget with enough votes. */
  lemma AcceptedPays(bs: seq<Finalized>, vout: seq<Out>, h: int, enabled: nat)
    ensures IsTransactionValid(bs, vout, h, enabled) ==>
      exists i, k :: 0 <= i < |bs| && 0 <= k < |bs[i].payments| && h == bs[i].start + k
        && Out(bs[i].payments[k].payee, bs[i].payments[k].amount) in vout && bs[i].votes > Highest(bs, h) - enabled / 10
  {
    if IsTransactionValid(bs, vout, h, enabled) {
      var i :| 0 <= i < |bs| && bs[i].votes > Highest(bs, h) - enabled / 10 && PaysBudget(bs[i], vout, h);
      var k :| 0 <= k < |bs[i].payments| && h == bs[i].start + k && Out(bs[i].payments[k].payee, bs[i].payments[k].amount) in vout;
    }
  }

  lemma NothingAcceptedBelowTen(bs: seq<Finalized>, vout: seq<Out>, h: int, enabled: nat)
    requires enabled < 10
    ensures !IsTransactionValid(bs, vout, h, enabled)
  {
  }
}
