/** Debt analysis (src/capital_os/domain/debt/engine.py): liabilities are scored, ranked by a total key and paid off
  greedily in rank order.  Balances, rates and payments are non-negative counts of 0.0001, as the input model leaves
  them. */
module Debt {
  import opened Wrappers
  import opened Ordering
  import opened Money

  datatype Liability = Liability(liabilityId: string, balance: nat, apr: nat, minimumPayment: nat)

  datatype Inputs = Inputs(liabilities: seq<Liability>, payoff: Option<nat>)

  datatype Explanation = Explanation(annualInterest: int, cashflow: int, readiness: int)

  datatype Scored = Scored(liability: Liability, score: int, explanation: Explanation)

  datatype Ranked = Ranked(
    rank: nat, scored: Scored, estimatedInterest: int, applied: int, postBalance: int,
    interestSaved: int, cashflowFreed: int, reserveImpact: int)

  datatype Analysis = Analysis(interestSaved: int, cashflowFreed: int, reserveImpact: int, ranked: seq<Ranked>)

  predicate UniqueIds(liabilities: seq<Liability>) {
    forall i, j :: 0 <= i < j < |liabilities| ==> liabilities[i].liabilityId != liabilities[j].liabilityId
  }

  // ------------------------------------------------------------------ scoring

  /** A year's interest on an amount, exactly. */
  function ExactInterest(amount: int, apr: int): real {
    Value(amount) * Value(apr) / 100.0
  }

  function YearlyInterest(amount: int, apr: int): int {
    Normalize(ExactInterest(amount, apr))
  }

  /** The share of the balance the payoff covers, at most one. */
  function Readiness(balance: nat, payoff: Option<nat>): int {
    if payoff.None? || payoff.value == 0 then 0
    else if balance == 0 then 10000
    else if payoff.value > balance then 10000
    else Normalize(payoff.value as real / balance as real)
  }

  function Score(l: Liability, payoff: Option<nat>): Scored {
    var interest, readiness := YearlyInterest(l.balance, l.apr), Readiness(l.balance, payoff);
    Scored(l, interest + l.minimumPayment + readiness * 100, Explanation(interest, l.minimumPayment, readiness))
  }

  /** The sort key: score, rate and payment descending, then the id. */
  predicate RankLe(x: Scored, y: Scored) {
    if x.score != y.score then x.score > y.score
    else if x.liability.apr != y.liability.apr then x.liability.apr > y.liability.apr
    else if x.liability.minimumPayment != y.liability.minimumPayment then
      x.liability.minimumPayment > y.liability.minimumPayment
    else StrLe(x.liability.liabilityId, y.liability.liabilityId)
  }

  lemma RankLePreorder()
    ensures Preorder(RankLe)
    ensures forall x, y :: RankLe(x, y) && RankLe(y, x) ==> x.liability.liabilityId == y.liability.liabilityId
  {
    StrLeLaws();
    hide StrLe;
  }

  /** The share of the balance the payoff covers, before rounding: one as soon as it covers all. */
  function ExactReadiness(balance: nat, payoff: Option<nat>): real {
    if payoff.None? || payoff.value == 0 then 0.0
    else if balance <= payoff.value then 1.0
    else payoff.value as real / balance as real
  }

  lemma ReadinessRounded(balance: nat, payoff: Option<nat>)
    ensures -0.00005 <= Value(Readiness(balance, payoff)) - ExactReadiness(balance, payoff) <= 0.00005
    ensures 0 <= Readiness(balance, payoff) <= 10000
  {
    if payoff.Some? && 0 < payoff.value <= balance {
      var share := payoff.value as real / balance as real;
      assert share * balance as real == payoff.value as real;
      assert 0.0 <= share <= 1.0 && (payoff.value == balance ==> share == 1.0);
      NormalizeLaws(0.0, share);
      NormalizeLaws(share, 1.0);
      RoundInteger(0);
      RoundInteger(10000);
    }
  }

  /** The score is annual interest plus minimum payment plus a hundred times the readiness, and the two roundings on
    the way move it by at most half a unit and a hundred half units. */
  lemma ScoreIsWeightedSum(l: Liability, payoff: Option<nat>)
    ensures var exact :=
            ExactInterest(l.balance, l.apr) + Value(l.minimumPayment) + 100.0 * ExactReadiness(l.balance, payoff);
            -0.00505 <= Value(Score(l, payoff).score) - exact <= 0.00505
  {
    hide Normalize, ExactInterest, Readiness, ExactReadiness;
    ReadinessRounded(l.balance, payoff);
    var interest := ExactInterest(l.balance, l.apr);
    NormalizeLaws(interest, interest);
  }

  /** Interest grows with the amount it is charged on. */
  lemma InterestMonotone(a: nat, b: nat, apr: nat)
    requires a <= b
    ensures YearlyInterest(a, apr) <= YearlyInterest(b, apr)
  {
    hide Normalize;
    var rate := Value(apr);
    assert rate >= 0.0 && Value(a) <= Value(b);
    assert (Value(b) - Value(a)) * rate >= 0.0;
    assert Value(b) * rate - Value(a) * rate == (Value(b) - Value(a)) * rate;
    NormalizeLaws(ExactInterest(a, apr), ExactInterest(b, apr));
  }

  // ------------------------------------------------------------------ the analysis, declaratively

  function Offered(payoff: Option<nat>): nat {
    match payoff case None => 0 case Some(amount) => amount
  }

  function AllScored(inputs: Inputs): seq<Scored> {
    seq(|inputs.liabilities|, i requires 0 <= i < |inputs.liabilities| => Score(inputs.liabilities[i], inputs.payoff))
  }

  function ScoredOf(ranked: seq<Ranked>): seq<Scored> {
    seq(|ranked|, i requires 0 <= i < |ranked| => ranked[i].scored)
  }

  function BalanceOf(s: Scored): int { s.liability.balance }
  function AppliedIn(r: Ranked): int { r.applied }
  function SavedIn(r: Ranked): int { r.interestSaved }
  function FreedIn(r: Ranked): int { r.cashflowFreed }
  function ImpactIn(r: Ranked): int { r.reserveImpact }
  function BalanceIn(r: Ranked): int { r.scored.liability.balance }

  /** What reaches the i-th liability: the payoff less the balances ranked before it, within [0, balance]. */
  function PaidTo(ordered: seq<Scored>, offered: nat, i: nat): int
    requires i < |ordered|
  {
    Min(Max(offered - SumBy(BalanceOf, ordered[..i]), 0), ordered[i].liability.balance)
  }

  predicate Entry(ordered: seq<Scored>, offered: nat, i: nat, r: Ranked)
    requires i < |ordered|
  {
    var l := ordered[i].liability;
    && r.rank == i + 1
    && r.scored == ordered[i]
    && r.estimatedInterest == YearlyInterest(l.balance, l.apr)
    && r.applied == PaidTo(ordered, offered, i)
    && r.postBalance == l.balance - r.applied
    && r.interestSaved == YearlyInterest(r.applied, l.apr)
    && r.cashflowFreed == (if r.applied == l.balance then l.minimumPayment else 0)
    && r.reserveImpact == -r.applied
  }

  predicate Entries(offered: nat, ranked: seq<Ranked>) {
    forall i :: 0 <= i < |ranked| ==> Entry(ScoredOf(ranked), offered, i, ranked[i])
  }

  /** The analysis owed: every liability once, in rank order, each entry as its place in the waterfall says, and
    totals that are the totals of the entries. */
  ghost predicate IsAnalysis(inputs: Inputs, a: Analysis) {
    && multiset(ScoredOf(a.ranked)) == multiset(AllScored(inputs))
    && SortedBy(RankLe, ScoredOf(a.ranked))
    && Entries(Offered(inputs.payoff), a.ranked)
    && a.interestSaved == SumBy(SavedIn, a.ranked)
    && a.cashflowFreed == SumBy(FreedIn, a.ranked)
    && a.reserveImpact == SumBy(ImpactIn, a.ranked)
  }

  // ------------------------------------------------------------------ the engine

  lemma PrefixSum(ordered: seq<Scored>, i: nat)
    requires i < |ordered|
    ensures SumBy(BalanceOf, ordered[..i + 1]) == SumBy(BalanceOf, ordered[..i]) + ordered[i].liability.balance
  {
    assert ordered[..i + 1] == ordered[..i] + [ordered[i]];
    SumByAppend(BalanceOf, ordered[..i], ordered[i]);
  }

  method Allocate(ordered: seq<Scored>, offered: nat) returns (a: Analysis)
    ensures |a.ranked| == |ordered|
    ensures forall i :: 0 <= i < |ordered| ==> Entry(ordered, offered, i, a.ranked[i])
    ensures a.interestSaved == SumBy(SavedIn, a.ranked)
    ensures a.cashflowFreed == SumBy(FreedIn, a.ranked)
    ensures a.reserveImpact == SumBy(ImpactIn, a.ranked)
  {
    hide YearlyInterest, SumBy;
    var remaining: int := offered;
    var saved, freed, impact := 0, 0, 0;
    var ranked: seq<Ranked> := [];
    NothingYet(ordered);
    for i := 0 to |ordered|
      invariant |ranked| == i
      invariant remaining == Max(offered - SumBy(BalanceOf, ordered[..i]), 0)
      invariant forall k :: 0 <= k < i ==> Entry(ordered, offered, k, ranked[k])
      invariant saved == SumBy(SavedIn, ranked)
      invariant freed == SumBy(FreedIn, ranked)
      invariant impact == SumBy(ImpactIn, ranked)
    {
      var l := ordered[i].liability;
      var applied := Min(remaining, l.balance);
      var post := l.balance - applied;
      var entry := Ranked(i + 1, ordered[i], YearlyInterest(l.balance, l.apr), applied, post,
                          YearlyInterest(applied, l.apr), if post == 0 then l.minimumPayment else 0, -applied);
      PrefixSum(ordered, i);
      Running(ranked, entry);
      remaining := remaining - applied;
      saved, freed, impact := saved + entry.interestSaved, freed + entry.cashflowFreed, impact + entry.reserveImpact;
      ranked := ranked + [entry];
    }
    a := Analysis(saved, freed, impact, ranked);
  }

  lemma NothingYet(ordered: seq<Scored>)
    ensures SumBy(BalanceOf, ordered[..0]) == 0
    ensures SumBy(SavedIn, []) == 0 && SumBy(FreedIn, []) == 0 && SumBy(ImpactIn, []) == 0
  {
  }

  lemma Running(ranked: seq<Ranked>, entry: Ranked)
    ensures SumBy(SavedIn, ranked + [entry]) == SumBy(SavedIn, ranked) + entry.interestSaved
    ensures SumBy(FreedIn, ranked + [entry]) == SumBy(FreedIn, ranked) + entry.cashflowFreed
    ensures SumBy(ImpactIn, ranked + [entry]) == SumBy(ImpactIn, ranked) + entry.reserveImpact
  {
    SumByAppend(SavedIn, ranked, entry);
    SumByAppend(FreedIn, ranked, entry);
    SumByAppend(ImpactIn, ranked, entry);
  }

  /** analyze_liabilities */
  method AnalyzeLiabilities(inputs: Inputs) returns (a: Analysis)
    ensures IsAnalysis(inputs, a)
  {
    hide RankLe, Entry, Sort, SumBy;
    var scored: seq<Scored> := [];
    for i := 0 to |inputs.liabilities|
      invariant scored == AllScored(inputs)[..i]
    {
      scored := scored + [Score(inputs.liabilities[i], inputs.payoff)];
    }
    assert scored == AllScored(inputs);
    RankLePreorder();
    SortCorrect(RankLe, scored);
    var ordered := Sort(RankLe, scored);
    a := Allocate(ordered, Offered(inputs.payoff));
    assert ScoredOf(a.ranked) == ordered by {
      forall i | 0 <= i < |ordered| ensures a.ranked[i].scored == ordered[i] {
        EntryScored(ordered, Offered(inputs.payoff), i, a.ranked[i]);
      }
    }
  }

  lemma EntryScored(ordered: seq<Scored>, offered: nat, i: nat, r: Ranked)
    requires i < |ordered| && Entry(ordered, offered, i, r)
    ensures r.scored == ordered[i]
  {
  }

  // ------------------------------------------------------------------ what a ranking says

  /** Higher scores come first; at equal scores higher rates, then higher minimum payments, then ids in string order. */
  lemma RankedByKey(inputs: Inputs, a: Analysis, i: nat, j: nat)
    requires IsAnalysis(inputs, a) && i < j < |a.ranked|
    ensures var x, y := a.ranked[i].scored, a.ranked[j].scored;
            && x.score >= y.score
            && (x.score == y.score ==> x.liability.apr >= y.liability.apr)
            && (x.score == y.score && x.liability.apr == y.liability.apr ==>
                  x.liability.minimumPayment >= y.liability.minimumPayment)
            && (x.score == y.score && x.liability.apr == y.liability.apr
                && x.liability.minimumPayment == y.liability.minimumPayment ==>
                  StrLe(x.liability.liabilityId, y.liability.liabilityId))
  {
    hide Entry, SumBy, Score, StrLe;
    assert RankLe(ScoredOf(a.ranked)[i], ScoredOf(a.ranked)[j]);
  }

  /** A year's interest in units: the nearest integer to the product, a rate of 1.0000 being one percent. */
  ghost predicate IsInterest(amount: int, apr: int, units: int) {
    IsNearestEven((amount * apr) as real / 1000000.0, units)
  }

  /** The share of a balance that the payoff covers, in units, and at most one. */
  ghost predicate IsReadiness(balance: nat, payoff: Option<nat>, units: int) {
    if payoff.None? || payoff.value == 0 then units == 0
    else if balance <= payoff.value then units == 10000
    else IsNearestEven((payoff.value * 10000) as real / balance as real, units)
  }

  lemma InterestUnits(amount: int, apr: int)
    ensures IsInterest(amount, apr, YearlyInterest(amount, apr))
  {
    var x, y := amount as real, apr as real;
    assert (x / 10000.0) * (y / 10000.0) / 100.0 * 10000.0 == x * y / 1000000.0;
    assert (amount * apr) as real == x * y;
  }

  lemma ReadinessUnits(balance: nat, payoff: Option<nat>)
    ensures IsReadiness(balance, payoff, Readiness(balance, payoff))
  {
    if payoff.Some? && 0 < payoff.value < balance {
      var x, y := payoff.value as real, balance as real;
      assert x / y * 10000.0 == x * 10000.0 / y;
      assert (payoff.value * 10000) as real == x * 10000.0;
    } else if payoff.Some? && payoff.value == balance && balance > 0 {
      assert payoff.value as real / balance as real == 1.0;
      RoundInteger(10000);
    }
  }

  lemma ScoreUnits(l: Liability, payoff: Option<nat>)
    ensures var s := Score(l, payoff);
            && s.liability == l
            && IsInterest(l.balance, l.apr, s.explanation.annualInterest)
            && s.explanation.cashflow == l.minimumPayment
            && IsReadiness(l.balance, payoff, s.explanation.readiness)
            && s.score == s.explanation.annualInterest + l.minimumPayment + 100 * s.explanation.readiness
  {
    hide YearlyInterest, Readiness, IsInterest, IsReadiness;
    InterestUnits(l.balance, l.apr);
    ReadinessUnits(l.balance, payoff);
  }

  /** Every figure of the i-th entry, in units: its liability is one of the request, its score is explained by interest,
    payment and readiness, and its effects follow from what is paid on it. */
  lemma EntryFigures(inputs: Inputs, a: Analysis, i: nat)
    requires IsAnalysis(inputs, a) && i < |a.ranked|
    ensures var r := a.ranked[i];
            var l, why := r.scored.liability, r.scored.explanation;
            && l in inputs.liabilities && r.rank == i + 1
            && IsInterest(l.balance, l.apr, why.annualInterest)
            && why.cashflow == l.minimumPayment
            && IsReadiness(l.balance, inputs.payoff, why.readiness)
            && r.scored.score == why.annualInterest + l.minimumPayment + 100 * why.readiness
            && r.estimatedInterest == why.annualInterest
            && IsInterest(r.applied, l.apr, r.interestSaved)
            && r.postBalance == l.balance - r.applied
            && r.cashflowFreed == (if r.applied == l.balance then l.minimumPayment else 0)
            && r.reserveImpact == -r.applied
    ensures a.interestSaved == SumBy((r: Ranked) => r.interestSaved, a.ranked)
    ensures a.cashflowFreed == SumBy((r: Ranked) => r.cashflowFreed, a.ranked)
    ensures a.reserveImpact == SumBy((r: Ranked) => r.reserveImpact, a.ranked)
  {
    hide YearlyInterest, SumBy, IsInterest, IsReadiness, Score;
    var r := a.ranked[i];
    assert Entry(ScoredOf(a.ranked), Offered(inputs.payoff), i, r);
    assert ScoredOf(a.ranked)[i] in multiset(AllScored(inputs));
    var k :| 0 <= k < |inputs.liabilities| && AllScored(inputs)[k] == r.scored;
    ScoreUnits(inputs.liabilities[k], inputs.payoff);
    InterestUnits(r.applied, r.scored.liability.apr);
    InterestUnits(r.scored.liability.balance, r.scored.liability.apr);
    NearestInterest(r.scored.liability, r.estimatedInterest, r.scored.explanation.annualInterest);
    SumByAgree((x: Ranked) => x.interestSaved, SavedIn, a.ranked);
    SumByAgree((x: Ranked) => x.cashflowFreed, FreedIn, a.ranked);
    SumByAgree((x: Ranked) => x.reserveImpact, ImpactIn, a.ranked);
  }

  lemma NearestInterest(l: Liability, x: int, y: int)
    requires IsInterest(l.balance, l.apr, x) && IsInterest(l.balance, l.apr, y)
    ensures x == y
  {
    NearestEvenUnique((l.balance * l.apr) as real / 1000000.0, x, y);
  }

  // ------------------------------------------------------------------ the waterfall

  lemma {:induction false} BalancesNonNegative(ordered: seq<Scored>)
    ensures SumBy(BalanceOf, ordered) >= 0
  {
    if ordered != [] {
      BalancesNonNegative(ordered[1..]);
    }
  }

  lemma LaterPrefix(ordered: seq<Scored>, i: nat, j: nat)
    requires i < j <= |ordered|
    ensures SumBy(BalanceOf, ordered[..j]) >= SumBy(BalanceOf, ordered[..i]) + ordered[i].liability.balance
  {
    PrefixSum(ordered, i);
    assert ordered[..j] == ordered[..i + 1] + ordered[i + 1..j];
    SumByConcat(BalanceOf, ordered[..i + 1], ordered[i + 1..j]);
    BalancesNonNegative(ordered[i + 1..j]);
  }

  /** Every share is within its balance, and nothing passes a liability that is not fully paid: a paid prefix, at most
    one partial payment, then zeros. */
  lemma Waterfall(inputs: Inputs, a: Analysis)
    requires IsAnalysis(inputs, a)
    ensures forall r :: r in a.ranked ==> 0 <= r.applied <= r.scored.liability.balance
    ensures forall i, j :: 0 <= i < j < |a.ranked| && a.ranked[i].applied < a.ranked[i].scored.liability.balance ==>
              a.ranked[j].applied == 0
  {
    hide YearlyInterest, SumBy;
    var ordered := ScoredOf(a.ranked);
    forall i, j | 0 <= i < j < |a.ranked| && a.ranked[i].applied < a.ranked[i].scored.liability.balance
      ensures a.ranked[j].applied == 0
    {
      assert Entry(ordered, Offered(inputs.payoff), i, a.ranked[i])
          && Entry(ordered, Offered(inputs.payoff), j, a.ranked[j]);
      LaterPrefix(ordered, i, j);
    }
  }

  /** After any number of ranks, as much as possible has been paid: the smaller of the payoff and the balances
    so far. */
  lemma {:induction false} PaidSoFar(offered: nat, ranked: seq<Ranked>, k: nat)
    requires Entries(offered, ranked) && k <= |ranked|
    ensures SumBy(AppliedIn, ranked[..k]) == Min(offered, SumBy(BalanceIn, ranked[..k]))
    ensures SumBy(BalanceIn, ranked[..k]) == SumBy(BalanceOf, ScoredOf(ranked)[..k]) >= 0
  {
    hide YearlyInterest;
    if k > 0 {
      PaidSoFar(offered, ranked, k - 1);
      var r := ranked[k - 1];
      assert Entry(ScoredOf(ranked), offered, k - 1, r);
      assert ranked[..k] == ranked[..k - 1] + [r];
      SumByAppend(AppliedIn, ranked[..k - 1], r);
      SumByAppend(BalanceIn, ranked[..k - 1], r);
      PrefixSum(ScoredOf(ranked), k - 1);
    }
  }

  lemma {:induction false} ImpactIsNegated(offered: nat, ranked: seq<Ranked>)
    requires forall r :: r in ranked ==> r.reserveImpact == -r.applied
    ensures SumBy(ImpactIn, ranked) == -SumBy(AppliedIn, ranked)
  {
    if ranked != [] {
      ImpactIsNegated(offered, ranked[1..]);
    }
  }

  lemma ScoredBalances(inputs: Inputs)
    ensures SumBy(BalanceOf, AllScored(inputs)) == SumBy(OwedOn, inputs.liabilities)
    decreases |inputs.liabilities|
  {
    if inputs.liabilities != [] {
      var rest := inputs.(liabilities := inputs.liabilities[1..]);
      assert AllScored(inputs)[1..] == AllScored(rest);
      ScoredBalances(rest);
    }
  }

  function OwedOn(l: Liability): int { l.balance }

  /** The payments sum to the smaller of the payoff and everything owed, and that is what the reserve loses. */
  lemma PaymentsConserve(inputs: Inputs, a: Analysis)
    requires IsAnalysis(inputs, a)
    ensures var offered := if inputs.payoff.Some? then inputs.payoff.value else 0;
            SumBy((r: Ranked) => r.applied, a.ranked) ==
                Min(offered, SumBy((l: Liability) => l.balance, inputs.liabilities))
    ensures SumBy(AppliedIn, a.ranked) == Min(Offered(inputs.payoff), SumBy(OwedOn, inputs.liabilities))
    ensures a.reserveImpact == -SumBy(AppliedIn, a.ranked)
  {
    hide YearlyInterest, SumBy, Score;
    var n := |a.ranked|;
    PaidSoFar(Offered(inputs.payoff), a.ranked, n);
    assert a.ranked[..n] == a.ranked && ScoredOf(a.ranked)[..n] == ScoredOf(a.ranked);
    SumByPermutation(BalanceOf, ScoredOf(a.ranked), AllScored(inputs));
    ScoredBalances(inputs);
    ImpactIsNegated(Offered(inputs.payoff), a.ranked);
    SumByAgree((r: Ranked) => r.applied, AppliedIn, a.ranked);
    SumByAgree((l: Liability) => l.balance, OwedOn, inputs.liabilities);
  }

  function Sum(s: seq<int>): int {
    if s == [] then 0 else s[0] + Sum(s[1..])
  }

  lemma {:induction false} SumAppend(s: seq<int>, x: int)
    ensures Sum(s + [x]) == Sum(s) + x
  {
    if s != [] {
      assert (s + [x])[1..] == s[1..] + [x];
      SumAppend(s[1..], x);
    }
  }

  /** No other way of spending the payoff gets more to the first k liabilities in rank order, for any k. */
  lemma {:induction false} GreedyDominates(inputs: Inputs, a: Analysis, other: seq<int>, k: nat)
    requires IsAnalysis(inputs, a) && |other| == |a.ranked| && k <= |other|
    requires forall i :: 0 <= i < |other| ==> 0 <= other[i] <= a.ranked[i].scored.liability.balance
    requires Sum(other) <= Offered(inputs.payoff)
    ensures Sum(other[..k]) <= SumBy(AppliedIn, a.ranked[..k])
  {
    PaidSoFar(Offered(inputs.payoff), a.ranked, k);
    SumSplits(other, k);
    WithinBalances(a.ranked, other, k);
  }

  lemma {:induction false} SumSplits(other: seq<int>, k: nat)
    requires k <= |other| && forall i :: 0 <= i < |other| ==> 0 <= other[i]
    ensures 0 <= Sum(other[..k]) <= Sum(other)
  {
    if k > 0 {
      SumSplits(other[1..], k - 1);
      assert other[..k][1..] == other[1..][..k - 1];
    } else {
      AtLeastZero(other);
    }
  }

  lemma {:induction false} AtLeastZero(s: seq<int>)
    requires forall i :: 0 <= i < |s| ==> 0 <= s[i]
    ensures 0 <= Sum(s)
  {
    if s != [] {
      AtLeastZero(s[1..]);
    }
  }

  lemma {:induction false} WithinBalances(ranked: seq<Ranked>, other: seq<int>, k: nat)
    requires |other| == |ranked| && k <= |other|
    requires forall i :: 0 <= i < |other| ==> other[i] <= ranked[i].scored.liability.balance
    ensures Sum(other[..k]) <= SumBy(BalanceIn, ranked[..k])
  {
    if k > 0 {
      WithinBalances(ranked, other, k - 1);
      assert other[..k] == other[..k - 1] + [other[k - 1]] && ranked[..k] == ranked[..k - 1] + [ranked[k - 1]];
      SumAppend(other[..k - 1], other[k - 1]);
      SumByAppend(BalanceIn, ranked[..k - 1], ranked[k - 1]);
    }
  }

  // ------------------------------------------------------------------ interest and cash flow

  /** What a payment saves is at most the liability's estimated annual interest, and saving it all needs no more than
    paying it all. */
  lemma SavingWithinEstimate(inputs: Inputs, a: Analysis, r: Ranked)
    requires IsAnalysis(inputs, a) && r in a.ranked
    ensures r.interestSaved <= r.estimatedInterest
    ensures r.applied == r.scored.liability.balance ==> r.interestSaved == r.estimatedInterest
  {
    hide YearlyInterest, SumBy;
    var i :| 0 <= i < |a.ranked| && a.ranked[i] == r;
    assert Entry(ScoredOf(a.ranked), Offered(inputs.payoff), i, r);
    InterestMonotone(r.applied, r.scored.liability.balance, r.scored.liability.apr);
  }

  /** The unrounded total of the interest saved. */
  function ExactSaved(ranked: seq<Ranked>): real {
    if ranked == [] then 0.0
    else ExactInterest(ranked[0].applied, ranked[0].scored.liability.apr) + ExactSaved(ranked[1..])
  }

  lemma {:induction false} SavingsDrift(ranked: seq<Ranked>)
    requires forall r :: r in ranked ==> r.interestSaved == YearlyInterest(r.applied, r.scored.liability.apr)
    ensures -0.00005 * |ranked| as real <= Value(SumBy(SavedIn, ranked)) - ExactSaved(ranked)
                                        <= 0.00005 * |ranked| as real
  {
    hide Normalize, ExactInterest;
    if ranked != [] {
      var r := ranked[0];
      var exact := ExactInterest(r.applied, r.scored.liability.apr);
      SavingsDrift(ranked[1..]);
      NormalizeLaws(exact, exact);
      assert SavedIn(r) == Normalize(exact);
      assert |ranked| as real == |ranked[1..]| as real + 1.0;
    }
  }

  /** n roundings move the total by at most n half units of 0.0001. */
  lemma SavedWithinHalfUnits(inputs: Inputs, a: Analysis)
    requires IsAnalysis(inputs, a)
    ensures var n := |inputs.liabilities| as real;
            -0.00005 * n <= Value(a.interestSaved) - ExactSaved(a.ranked) <= 0.00005 * n
  {
    hide YearlyInterest, SumBy, Score;
    RankedLength(inputs, a);
    forall r | r in a.ranked
      ensures r.interestSaved == YearlyInterest(r.applied, r.scored.liability.apr)
    {
      var i :| 0 <= i < |a.ranked| && a.ranked[i] == r;
      assert Entry(ScoredOf(a.ranked), Offered(inputs.payoff), i, r);
    }
    SavingsDrift(a.ranked);
  }

  /** n liabilities of one unit at 50 percent, all paid off. */
  function HalfUnits(n: nat): Inputs {
    Inputs(seq(n, i requires 0 <= i => Liability(seq(i + 1, _ => 'a'), 1, 500000, 0)), Some(n))
  }

  lemma {:induction false} HalfUnitEach(ranked: seq<Ranked>)
    requires forall r :: r in ranked ==> r.applied == 1 && r.scored.liability.apr == 500000 && r.interestSaved == 0
    ensures SumBy(SavedIn, ranked) == 0
    ensures ExactSaved(ranked) == 0.00005 * |ranked| as real
  {
    if ranked != [] {
      HalfUnitEach(ranked[1..]);
      assert ExactInterest(1, 500000) == 0.00005;
      assert |ranked| as real == |ranked[1..]| as real + 1.0;
    }
  }

  lemma {:induction false} UnitsOwed(liabilities: seq<Liability>)
    requires forall l :: l in liabilities ==> l.balance == 1
    ensures SumBy(OwedOn, liabilities) == |liabilities|
  {
    if liabilities != [] {
      UnitsOwed(liabilities[1..]);
    }
  }

  /** The bound is met for every n: half units that all round down leave the total n half units short. */
  lemma HalfUnitsMeetTheBound(n: nat, a: Analysis)
    requires IsAnalysis(HalfUnits(n), a)
    ensures UniqueIds(HalfUnits(n).liabilities)
    ensures Value(a.interestSaved) - ExactSaved(a.ranked) == -0.00005 * n as real
  {
    hide SumBy;
    var inputs := HalfUnits(n);
    forall i, j | 0 <= i < j < n
      ensures inputs.liabilities[i].liabilityId != inputs.liabilities[j].liabilityId
    {
      assert |inputs.liabilities[i].liabilityId| == i + 1 && |inputs.liabilities[j].liabilityId| == j + 1;
    }
    RankedLength(inputs, a);
    forall r | r in a.ranked
      ensures r.applied == 1 && r.scored.liability.apr == 500000 && r.interestSaved == 0
    {
      HalfUnitEntry(n, a, r);
    }
    HalfUnitEach(a.ranked);
  }

  lemma HalfUnitShape(n: nat, a: Analysis, r: Ranked)
    requires IsAnalysis(HalfUnits(n), a) && r in a.ranked
    ensures r.scored.liability.balance == 1 && r.scored.liability.apr == 500000
    ensures r.interestSaved == YearlyInterest(r.applied, r.scored.liability.apr)
  {
    hide SumBy, Score, YearlyInterest;
    var inputs := HalfUnits(n);
    var i :| 0 <= i < |a.ranked| && a.ranked[i] == r;
    assert Entry(ScoredOf(a.ranked), n, i, r);
    assert ScoredOf(a.ranked)[i] in multiset(AllScored(inputs));
    var k :| 0 <= k < n && AllScored(inputs)[k] == r.scored;
    ScoreKeeps(inputs.liabilities[k], inputs.payoff);
  }

  lemma HalfUnitEntry(n: nat, a: Analysis, r: Ranked)
    requires IsAnalysis(HalfUnits(n), a) && r in a.ranked
    ensures r.applied == 1 && r.scored.liability.apr == 500000 && r.interestSaved == 0
  {
    hide SumBy, Score, IsAnalysis, YearlyInterest;
    var inputs := HalfUnits(n);
    forall x | x in a.ranked ensures x.scored.liability.balance == 1 {
      HalfUnitShape(n, a, x);
    }
    HalfUnitShape(n, a, r);
    RankedLength(inputs, a);
    UnitsOwed(inputs.liabilities);
    PaymentsConserve(inputs, a);
    Waterfall(inputs, a);
    AllPaid(a.ranked, r);
    HalfUnitRoundsDown();
  }

  lemma RankedLength(inputs: Inputs, a: Analysis)
    requires IsAnalysis(inputs, a)
    ensures |a.ranked| == |inputs.liabilities|
  {
    hide SumBy, Score, Entry;
    assert |multiset(ScoredOf(a.ranked))| == |multiset(AllScored(inputs))|;
  }

  lemma HalfUnitRoundsDown()
    ensures YearlyInterest(1, 500000) == 0
  {
    assert ExactInterest(1, 500000) * 10000.0 == 0.5;
  }

  lemma ScoreKeeps(l: Liability, payoff: Option<nat>)
    ensures Score(l, payoff).liability == l
  {
  }

  lemma {:induction false} AllPaid(ranked: seq<Ranked>, r: Ranked)
    requires r in ranked && forall x :: x in ranked ==> x.applied <= 1
    requires SumBy(AppliedIn, ranked) == |ranked|
    ensures r.applied == 1
  {
    PaidAtMost(ranked[1..]);
    if ranked[0] != r {
      AllPaid(ranked[1..], r);
    }
  }

  lemma {:induction false} PaidAtMost(ranked: seq<Ranked>)
    requires forall x :: x in ranked ==> x.applied <= 1
    ensures SumBy(AppliedIn, ranked) <= |ranked|
  {
    if ranked != [] {
      PaidAtMost(ranked[1..]);
    }
  }

  // ------------------------------------------------------------------ the order of the request

  lemma {:induction false} ScoredCount(inputs: Inputs, s: Scored)
    ensures multiset(AllScored(inputs))[s] ==
            if Score(s.liability, inputs.payoff) == s then multiset(inputs.liabilities)[s.liability] else 0
    decreases |inputs.liabilities|
  {
    hide Score;
    if inputs.liabilities != [] {
      var l := inputs.liabilities[0];
      var rest := inputs.(liabilities := inputs.liabilities[1..]);
      ScoredCount(rest, s);
      ScoreKeeps(l, inputs.payoff);
      assert AllScored(inputs) == [Score(l, inputs.payoff)] + AllScored(rest);
      assert inputs.liabilities == [l] + rest.liabilities;
    }
  }

  lemma EntriesDetermined(offered: nat, a: seq<Ranked>, b: seq<Ranked>)
    requires ScoredOf(a) == ScoredOf(b) && Entries(offered, a) && Entries(offered, b)
    ensures a == b
  {
    hide YearlyInterest;
    assert |ScoredOf(a)| == |a| && |ScoredOf(b)| == |b|;
    forall i | 0 <= i < |a| ensures a[i] == b[i] {
      assert Entry(ScoredOf(a), offered, i, a[i]) && Entry(ScoredOf(b), offered, i, b[i]);
    }
  }

  lemma RankedWithoutTies(inputs: Inputs, s: seq<Scored>)
    requires UniqueIds(inputs.liabilities) && multiset(s) == multiset(AllScored(inputs))
    ensures NoTies(RankLe, s)
  {
    RankLePreorder();
    hide RankLe, Score;
    forall i, j | 0 <= i < |s| && 0 <= j < |s| && RankLe(s[i], s[j]) && RankLe(s[j], s[i])
      ensures s[i] == s[j]
    {
      assert s[i] in multiset(AllScored(inputs)) && s[j] in multiset(AllScored(inputs));
      var k :| 0 <= k < |inputs.liabilities| && AllScored(inputs)[k] == s[i];
      var m :| 0 <= m < |inputs.liabilities| && AllScored(inputs)[m] == s[j];
      ScoreKeeps(inputs.liabilities[k], inputs.payoff);
      ScoreKeeps(inputs.liabilities[m], inputs.payoff);
    }
  }

  /** With unique ids the ranking key never ties, so the liabilities' order in the request changes nothing. */
  lemma OrderOfRequestIrrelevant(p: Inputs, q: Inputs, a: Analysis, b: Analysis)
    requires UniqueIds(p.liabilities)
    requires multiset(p.liabilities) == multiset(q.liabilities) && p.payoff == q.payoff
    requires IsAnalysis(p, a) && IsAnalysis(q, b)
    ensures a == b
  {
    hide RankLe, Score, Entry, SumBy;
    RankLePreorder();
    forall s ensures multiset(AllScored(p))[s] == multiset(AllScored(q))[s] {
      ScoredCount(p, s);
      ScoredCount(q, s);
    }
    RankedWithoutTies(p, ScoredOf(a.ranked));
    SortedUnique(RankLe, ScoredOf(a.ranked), ScoredOf(b.ranked));
    EntriesDetermined(Offered(p.payoff), a.ranked, b.ranked);
  }
}
