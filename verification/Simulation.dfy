/** Spend simulation (src/capital_os/domain/simulation/engine.py): a horizon of month-long periods, the
  spends that fall in each, and the running balance. */
module Simulation {
  import opened Ordering
  import opened Money
  import opened Calendar

  datatype Cadence = Monthly | Weekly

  datatype Schedule =
    | OneTime(date: Date)
    | Recurring(start: Date, cadence: Cadence, occurrences: nat)

  /** Amounts are already normalised and non-negative when the engine sees them. */
  datatype Spend = Spend(spendId: string, amount: nat, schedule: Schedule)

  datatype Inputs = Inputs(startingLiquidity: int, startDate: Date, horizon: nat, spends: seq<Spend>)

  datatype Period = Period(
    index: nat, start: Date, end: Date,
    oneTimeTotal: int, recurringTotal: int, totalSpend: int, endingLiquidity: int)

  // ------------------------------------------------------------------ what the engine is given

  predicate ValidSpend(s: Spend) {
    match s.schedule
    case OneTime(d) => Valid(d)
    case Recurring(d, _, n) => Valid(d) && 1 <= n
  }

  predicate UniqueIds(spends: seq<Spend>) {
    forall i, j :: 0 <= i < j < |spends| ==> spends[i].spendId != spends[j].spendId
  }

  /** What the input schema enforces before the engine runs. */
  predicate ValidInputs(inputs: Inputs) {
    && Valid(inputs.startDate)
    && 1 <= inputs.horizon
    && UniqueIds(inputs.spends)
    && forall s :: s in inputs.spends ==> ValidSpend(s)
  }

  // ------------------------------------------------------------------ periods

  function PeriodStart(start: Date, i: nat): Date {
    AddMonths(start, i)
  }

  /** The first day after period i. */
  function PeriodStop(start: Date, i: nat): Date {
    AddMonths(PeriodStart(start, i), 1)
  }

  function PeriodEnd(start: Date, i: nat): (end: Date)
    requires Valid(start)
    ensures Valid(end)
  {
    PeriodBounds(start, i);
    PrevDay(PeriodStop(start, i))
  }

  predicate Within(d: Date, lo: Date, hi: Date) {
    NotAfter(lo, d) && NotAfter(d, hi)
  }

  predicate InPeriod(start: Date, i: nat, d: Date)
    requires Valid(start)
  {
    Within(d, PeriodStart(start, i), PeriodEnd(start, i))
  }

  lemma PeriodBounds(start: Date, i: nat)
    requires Valid(start)
    ensures Valid(PeriodStart(start, i)) && Valid(PeriodStop(start, i))
    ensures Before(PeriodStart(start, i), PeriodStop(start, i))
  {
    hide AddMonths;
    AddMonthsMeaning(start, i);
    AddMonthsMeaning(PeriodStart(start, i), 1);
    MonthIndexOrder(PeriodStart(start, i), PeriodStop(start, i));
  }

  /** A date is in period i exactly when it is on or after its start and before its stop. */
  lemma InPeriodMeaning(start: Date, i: nat, d: Date)
    requires Valid(start) && Valid(d)
    ensures InPeriod(start, i, d) <==> NotAfter(PeriodStart(start, i), d) && Before(d, PeriodStop(start, i))
  {
    hide AddMonths;
    PeriodBounds(start, i);
    PrevDayAdjacent(d, PeriodStop(start, i));
  }

  /** The day clamped in month `i - 1` cannot come back in month `i`. */
  predicate Clamped(start: Date, i: nat)
    requires 1 <= i
  {
    MonthLength(MonthIndex(start) + i - 1) < Min(start.day, MonthLength(MonthIndex(start) + i))
  }

  /** Each period stops no later than the next one starts, and exactly there unless the day was clamped. */
  lemma StopMeetsNextStart(start: Date, i: nat)
    requires Valid(start)
    ensures NotAfter(PeriodStop(start, i), PeriodStart(start, i + 1))
    ensures Before(PeriodStop(start, i), PeriodStart(start, i + 1)) <==> Clamped(start, i + 1)
  {
    hide AddMonths, DaysInMonth;
    PeriodBounds(start, i);
    PeriodBounds(start, i + 1);
    AddMonthsMeaning(start, i);
    AddMonthsMeaning(start, i + 1);
    AddMonthsMeaning(PeriodStart(start, i), 1);
    MonthIndexOrder(PeriodStop(start, i), PeriodStart(start, i + 1));
  }

  lemma {:induction false} StartsIncrease(start: Date, i: nat, j: nat)
    requires Valid(start) && i < j
    ensures NotAfter(PeriodStop(start, i), PeriodStart(start, j))
    ensures Before(PeriodStart(start, i), PeriodStart(start, j))
    decreases j
  {
    hide AddMonths, Clamped;
    PeriodBounds(start, i);
    StopMeetsNextStart(start, j - 1);
    if i < j - 1 {
      StartsIncrease(start, i, j - 1);
      PeriodBounds(start, j - 1);
    }
  }

  /** For every start date the periods come in increasing order and share no day. */
  lemma PeriodsDisjoint(start: Date, i: nat, j: nat, d: Date)
    requires Valid(start) && Valid(d) && i < j
    ensures Before(PeriodEnd(start, i), PeriodStart(start, j))
    ensures !(InPeriod(start, i, d) && InPeriod(start, j, d))
  {
    hide AddMonths;
    StartsIncrease(start, i, j);
    PeriodBounds(start, i);
    PeriodBounds(start, j);
    PrevDayAdjacent(PeriodEnd(start, i), PeriodStop(start, i));
    InPeriodMeaning(start, i, d);
    InPeriodMeaning(start, j, d);
  }

  // ------------------------------------------------------------------ coverage

  ghost predicate Covered(start: Date, horizon: nat, d: Date)
    requires Valid(start)
  {
    exists i: nat :: i < horizon && InPeriod(start, i, d)
  }

  /** The days from `start` to just before `start` plus `horizon` months. */
  predicate InHorizon(start: Date, horizon: nat, d: Date) {
    NotAfter(start, d) && Before(d, AddMonths(start, horizon))
  }

  /** The periods cover every day of the horizon and no other. */
  ghost predicate Tiles(start: Date, horizon: nat)
    requires Valid(start)
  {
    forall d :: Valid(d) ==> (Covered(start, horizon, d) <==> InHorizon(start, horizon, d))
  }

  ghost predicate NeverClamped(start: Date, horizon: nat) {
    forall i: nat :: 1 <= i <= horizon ==> !Clamped(start, i)
  }

  lemma PeriodZero(start: Date)
    requires Valid(start)
    ensures PeriodStart(start, 0) == start
  {
    AddMonthsMeaning(start, 0);
    MonthIndexOrder(start, PeriodStart(start, 0));
  }

  /** Covered days always lie in the horizon, whatever the start day. */
  lemma CoveredInHorizon(start: Date, horizon: nat, i: nat, d: Date)
    requires Valid(start) && Valid(d) && i < horizon && InPeriod(start, i, d)
    ensures InHorizon(start, horizon, d)
  {
    hide AddMonths;
    InPeriodMeaning(start, i, d);
    StartsIncrease(start, i, horizon);
    PeriodZero(start);
    if 0 < i {
      StartsIncrease(start, 0, i);
    }
  }

  lemma {:induction false} HorizonCovered(start: Date, horizon: nat, d: Date)
    requires Valid(start) && Valid(d) && NeverClamped(start, horizon) && InHorizon(start, horizon, d)
    ensures Covered(start, horizon, d)
    decreases horizon
  {
    hide AddMonths, Clamped;
    PeriodZero(start);
    assert 0 < horizon;
    var last := horizon - 1;
    StopMeetsNextStart(start, last);
    InPeriodMeaning(start, last, d);
    if !InPeriod(start, last, d) {
      HorizonCovered(start, last, d);
    }
  }

  /** The day period i - 1 stops on, when clamping leaves it before period i. */
  lemma GapDay(start: Date, horizon: nat, i: nat)
    requires Valid(start) && 1 <= i <= horizon && Clamped(start, i)
    ensures var d := PeriodStop(start, i - 1);
            Valid(d) && InHorizon(start, horizon, d) && !Covered(start, horizon, d)
  {
    hide AddMonths, Clamped;
    var d := PeriodStop(start, i - 1);
    PeriodBounds(start, i - 1);
    StopMeetsNextStart(start, i - 1);
    PeriodZero(start);
    if 1 < i {
      StartsIncrease(start, 0, i - 1);
    }
    if i < horizon {
      StartsIncrease(start, i, horizon);
    }
    forall j: nat | j < horizon
      ensures !InPeriod(start, j, d)
    {
      InPeriodMeaning(start, j, d);
      if j < i - 1 {
        StartsIncrease(start, j, i - 1);
      } else if i < j {
        StartsIncrease(start, i, j);
      }
    }
  }

  /** The periods tile the horizon exactly when no month boundary in it meets a clamped day. */
  lemma TilesExactly(start: Date, horizon: nat)
    requires Valid(start)
    ensures Tiles(start, horizon) <==> NeverClamped(start, horizon)
  {
    if NeverClamped(start, horizon) {
      forall d | Valid(d)
        ensures Covered(start, horizon, d) <==> InHorizon(start, horizon, d)
      {
        if Covered(start, horizon, d) {
          var i: nat :| i < horizon && InPeriod(start, i, d);
          CoveredInHorizon(start, horizon, i, d);
        } else if InHorizon(start, horizon, d) {
          HorizonCovered(start, horizon, d);
        }
      }
    } else {
      var i: nat :| 1 <= i <= horizon && Clamped(start, i);
      GapDay(start, horizon, i);
    }
  }

  /** Three months from 31 January 2025: February clamps the day and March brings it back, so 28 March is in the horizon
    and in no period. */
  lemma LateJanuaryLeavesAGap()
    ensures var start, d := Date(2025, 1, 31), Date(2025, 3, 28);
            Valid(start) && Valid(d) && InHorizon(start, 3, d) && !Covered(start, 3, d) && !NeverClamped(start, 3)
  {
    var start := Date(2025, 1, 31);
    assert PeriodStop(start, 1) == Date(2025, 3, 28);
    assert Clamped(start, 2);
    GapDay(start, 3, 2);
  }

  /** Starting on the 28th or earlier never leaves a gap. */
  lemma EarlyStartTiles(start: Date, horizon: nat)
    requires Valid(start) && start.day <= 28
    ensures Tiles(start, horizon)
  {
    hide AddMonths;
    forall i: nat | 1 <= i <= horizon
      ensures !Clamped(start, i)
    {
      assert 28 <= MonthLength(MonthIndex(start) + i - 1);
    }
    TilesExactly(start, horizon);
  }

  // ------------------------------------------------------------------ charges

  function Occurrence(first: Date, cadence: Cadence, i: nat): Date
    requires Valid(first)
  {
    match cadence
    case Monthly => AddMonths(first, i)
    case Weekly =>
      OrdinalPositive(first);
      FromOrdinal(Ordinal(first) + 7 * i)
  }

  /** The i-th occurrence of a schedule: its first day for i = 0, seven days on for each week, and one month on for each
    month, on the first day's day of the month or the month's last. */
  predicate IsOccurrence(first: Date, cadence: Cadence, i: nat, d: Date)
    requires Valid(first)
  {
    && Valid(d)
    && (i == 0 ==> d == first)
    && (cadence == Weekly ==> Ordinal(d) == Ordinal(first) + 7 * i)
    && (cadence == Monthly ==>
          && MonthIndex(d) == MonthIndex(first) + i
          && d.day == Min(first.day, MonthLength(MonthIndex(first) + i)))
  }

  /** Occurrences fall where their cadence says, and in strictly increasing order. */
  lemma OccurrencesSpaced(first: Date, cadence: Cadence, i: nat, j: nat)
    requires Valid(first)
    ensures IsOccurrence(first, cadence, i, Occurrence(first, cadence, i))
    ensures i < j ==> Before(Occurrence(first, cadence, i), Occurrence(first, cadence, j))
  {
    hide AddMonths, Ordinal, FromOrdinal, MonthLength;
    if cadence == Monthly {
      AddMonthsMeaning(first, i);
      AddMonthsMeaning(first, j);
      MonthIndexOrder(Occurrence(first, cadence, i), Occurrence(first, cadence, j));
      FirstMonth(first);
    } else {
      OrdinalRoundTrip(first);
      OrdinalOfFromOrdinal(Ordinal(first) + 7 * i);
      OrdinalOfFromOrdinal(Ordinal(first) + 7 * j);
      OrdinalOrder(Occurrence(first, cadence, i), Occurrence(first, cadence, j));
    }
  }

  lemma FirstMonth(first: Date)
    requires Valid(first)
    ensures AddMonths(first, 0) == first
  {
  }

  /** Every day a spend falls due. */
  function Dates(s: Spend): seq<Date>
    requires ValidSpend(s)
  {
    match s.schedule
    case OneTime(d) => [d]
    case Recurring(first, cadence, n) => seq(n, i requires 0 <= i => Occurrence(first, cadence, i))
  }

  lemma DatesValid(s: Spend)
    requires ValidSpend(s)
    ensures forall d :: d in Dates(s) ==> Valid(d)
  {
    if s.schedule.Recurring? {
      forall i: nat ensures Valid(Occurrence(s.schedule.start, s.schedule.cadence, i)) {
        AddMonthsMeaning(s.schedule.start, i);
      }
    }
  }

  function ChargeIf(amount: int, lo: Date, hi: Date): Date -> int {
    (d: Date) => if Within(d, lo, hi) then amount else 0
  }

  function OneTimeIn(lo: Date, hi: Date): Spend -> int {
    (s: Spend) =>
      if ValidSpend(s) && s.schedule.OneTime? then SumBy(ChargeIf(s.amount, lo, hi), Dates(s)) else 0
  }

  function RecurringIn(lo: Date, hi: Date): Spend -> int {
    (s: Spend) =>
      if ValidSpend(s) && s.schedule.Recurring? then SumBy(ChargeIf(s.amount, lo, hi), Dates(s)) else 0
  }

  /** All charges of period i, from the spends as given. */
  function PeriodTotal(inputs: Inputs, i: nat): int
    requires Valid(inputs.startDate)
  {
    var lo, hi := PeriodStart(inputs.startDate, i), PeriodEnd(inputs.startDate, i);
    SumBy(OneTimeIn(lo, hi), inputs.spends) + SumBy(RecurringIn(lo, hi), inputs.spends)
  }

  function ChargedThrough(inputs: Inputs, n: nat): int
    requires Valid(inputs.startDate)
  {
    if n == 0 then 0 else ChargedThrough(inputs, n - 1) + PeriodTotal(inputs, n - 1)
  }

  function ExpectedPeriod(inputs: Inputs, i: nat): Period
    requires Valid(inputs.startDate)
  {
    var lo, hi := PeriodStart(inputs.startDate, i), PeriodEnd(inputs.startDate, i);
    Period(i, lo, hi, SumBy(OneTimeIn(lo, hi), inputs.spends), SumBy(RecurringIn(lo, hi), inputs.spends),
           PeriodTotal(inputs, i), inputs.startingLiquidity - ChargedThrough(inputs, i + 1))
  }

  // ------------------------------------------------------------------ the engine

  /** _recurring_dates */
  method RecurringDates(s: Spend) returns (dates: seq<Date>)
    requires ValidSpend(s)
    ensures dates == if s.schedule.Recurring? then Dates(s) else []
    ensures s.schedule.Recurring? ==>
              && |dates| == s.schedule.occurrences
              && forall i :: 0 <= i < |dates| ==> IsOccurrence(s.schedule.start, s.schedule.cadence, i, dates[i])
  {
    hide IsOccurrence;
    dates := [];
    if s.schedule.OneTime? {
      return;
    }
    var Recurring(first, cadence, n) := s.schedule;
    for i := 0 to n
      invariant dates == Dates(s)[..i]
      invariant forall j :: 0 <= j < i ==> IsOccurrence(first, cadence, j, dates[j])
    {
      OccurrencesSpaced(first, cadence, i, i);
      match cadence {
        case Monthly => dates := dates + [AddMonths(first, i)];
        case Weekly =>
          OrdinalPositive(first);
          dates := dates + [FromOrdinal(Ordinal(first) + 7 * i)];
      }
    }
  }

  /** The engine's sort key: (spend_id, type). */
  predicate SpendLe(a: Spend, b: Spend) {
    StrLt(a.spendId, b.spendId) || (a.spendId == b.spendId && (a.schedule.OneTime? || b.schedule.Recurring?))
  }

  lemma SpendLePreorder()
    ensures Preorder(SpendLe)
  {
    StrLeLaws();
  }

  /** Equal ids name the same spend, in any arrangement of spends with unique ids. */
  ghost predicate IdsIdentify(spends: seq<Spend>) {
    forall a, b :: a in spends && b in spends && a.spendId == b.spendId ==> a == b
  }

  lemma SortKeepsSpends(inputs: Inputs, sorted: seq<Spend>)
    requires ValidInputs(inputs) && sorted == Sort(SpendLe, inputs.spends)
    ensures multiset(sorted) == multiset(inputs.spends)
    ensures IdsIdentify(sorted) && forall s :: s in sorted ==> ValidSpend(s)
  {
    SpendLePreorder();
    SortCorrect(SpendLe, inputs.spends);
    forall s ensures s in sorted <==> s in inputs.spends {
      assert s in sorted <==> s in multiset(sorted);
    }
  }

  /** The inner loop: the amount once for each date in the period. */
  method ChargeDates(before: int, amount: int, dates: seq<Date>, lo: Date, hi: Date) returns (total: int)
    ensures total == before + SumBy(ChargeIf(amount, lo, hi), dates)
  {
    total := before;
    for m := 0 to |dates|
      invariant total == before + SumBy(ChargeIf(amount, lo, hi), dates[..m])
    {
      assert dates[..m + 1] == dates[..m] + [dates[m]];
      SumByAppend(ChargeIf(amount, lo, hi), dates[..m], dates[m]);
      if Within(dates[m], lo, hi) {
        total := total + amount;
      }
    }
    assert dates[..|dates|] == dates;
  }

  /** One period's two totals, by the engine's nested loops. */
  method PeriodTotals(sorted: seq<Spend>, schedules: map<string, seq<Date>>, lo: Date, hi: Date)
    returns (oneTime: int, recurring: int)
    requires forall s :: s in sorted ==> ValidSpend(s)
    requires forall s :: s in sorted && s.schedule.Recurring? ==>
               s.spendId in schedules && schedules[s.spendId] == Dates(s)
    ensures oneTime == SumBy(OneTimeIn(lo, hi), sorted)
    ensures recurring == SumBy(RecurringIn(lo, hi), sorted)
  {
    oneTime, recurring := 0, 0;
    for k := 0 to |sorted|
      invariant oneTime == SumBy(OneTimeIn(lo, hi), sorted[..k])
      invariant recurring == SumBy(RecurringIn(lo, hi), sorted[..k])
    {
      var s := sorted[k];
      assert sorted[..k + 1] == sorted[..k] + [s];
      SumByAppend(OneTimeIn(lo, hi), sorted[..k], s);
      SumByAppend(RecurringIn(lo, hi), sorted[..k], s);
      match s.schedule {
        case OneTime(date) =>
          SumByAppend(ChargeIf(s.amount, lo, hi), [], date);
          assert [] + [date] == [date];
          if Within(date, lo, hi) {
            oneTime := oneTime + s.amount;
          }
        case Recurring(_, _, _) =>
          recurring := ChargeDates(recurring, s.amount, schedules[s.spendId], lo, hi);
      }
    }
    assert sorted[..|sorted|] == sorted;
  }

  method BuildSchedules(sorted: seq<Spend>) returns (schedules: map<string, seq<Date>>)
    requires IdsIdentify(sorted) && forall s :: s in sorted ==> ValidSpend(s)
    ensures forall s :: s in sorted ==> s.spendId in schedules
    ensures forall s :: s in sorted && s.schedule.Recurring? ==> schedules[s.spendId] == Dates(s)
  {
    hide Dates;
    schedules := map[];
    for k := 0 to |sorted|
      invariant forall j :: 0 <= j < k ==> sorted[j].spendId in schedules
      invariant forall j :: 0 <= j < k && sorted[j].schedule.Recurring? ==>
                  schedules[sorted[j].spendId] == Dates(sorted[j])
    {
      var dates := RecurringDates(sorted[k]);
      schedules := schedules[sorted[k].spendId := dates];
    }
  }

  /** compute_simulation_projection: every period's dates, totals and closing balance, whatever order the
    spends were given in. */
  method ComputeSimulationProjection(inputs: Inputs) returns (periods: seq<Period>)
    requires ValidInputs(inputs)
    ensures |periods| == inputs.horizon
    ensures forall i :: 0 <= i < |periods| ==> periods[i] == ExpectedPeriod(inputs, i)
  {
    hide Sort, Dates, OneTimeIn, RecurringIn, AddMonths;
    var sorted := Sort(SpendLe, inputs.spends);
    SortKeepsSpends(inputs, sorted);
    var schedules := BuildSchedules(sorted);
    var currentLiquidity := inputs.startingLiquidity;
    periods := [];
    for i := 0 to inputs.horizon
      invariant |periods| == i
      invariant currentLiquidity == inputs.startingLiquidity - ChargedThrough(inputs, i)
      invariant forall j :: 0 <= j < i ==> periods[j] == ExpectedPeriod(inputs, j)
    {
      var lo := AddMonths(inputs.startDate, i);
      PeriodBounds(inputs.startDate, i);
      var hi := PrevDay(AddMonths(lo, 1));
      var oneTime, recurring := PeriodTotals(sorted, schedules, lo, hi);
      SumByPermutation(OneTimeIn(lo, hi), sorted, inputs.spends);
      SumByPermutation(RecurringIn(lo, hi), sorted, inputs.spends);
      var total := oneTime + recurring;
      currentLiquidity := currentLiquidity - total;
      periods := periods + [Period(i, lo, hi, oneTime, recurring, total, currentLiquidity)];
    }
  }

  // ------------------------------------------------------------------ what a period says

  /** The places in a list of days that lie from `lo` to `hi`, both included. */
  ghost function DuePlaces(dates: seq<Date>, lo: Date, hi: Date): set<nat>
    requires Valid(lo) && Valid(hi) && forall d :: d in dates ==> Valid(d)
  {
    set k: nat | k < |dates| && Ordinal(lo) <= Ordinal(dates[k]) <= Ordinal(hi)
  }

  /** How many of a spend's days lie from `lo` to `hi`. */
  ghost function TimesDue(s: Spend, lo: Date, hi: Date): nat
    requires ValidSpend(s) && Valid(lo) && Valid(hi)
  {
    DatesValid(s);
    |DuePlaces(Dates(s), lo, hi)|
  }

  /** What one spend of the given kind adds to a period. */
  ghost function Due(lo: Date, hi: Date, oneTime: bool): Spend -> int
    requires Valid(lo) && Valid(hi)
  {
    (s: Spend) => if ValidSpend(s) && s.schedule.OneTime? == oneTime then s.amount * TimesDue(s, lo, hi) else 0
  }

  lemma OneMoreDay(dates: seq<Date>, d: Date, lo: Date, hi: Date)
    requires Valid(lo) && Valid(hi) && Valid(d) && forall x :: x in dates ==> Valid(x)
    ensures |DuePlaces(dates + [d], lo, hi)| == |DuePlaces(dates, lo, hi)| + if Within(d, lo, hi) then 1 else 0
  {
    hide Ordinal;
    OrdinalOrder(d, lo);
    OrdinalOrder(d, hi);
    OrdinalOrder(lo, d);
    var n: nat := |dates|;
    assert DuePlaces(dates + [d], lo, hi) == DuePlaces(dates, lo, hi) + if Within(d, lo, hi) then {n} else {};
  }

  lemma {:induction false} ChargesCounted(amount: int, dates: seq<Date>, lo: Date, hi: Date)
    requires Valid(lo) && Valid(hi) && forall d :: d in dates ==> Valid(d)
    ensures SumBy(ChargeIf(amount, lo, hi), dates) == amount * |DuePlaces(dates, lo, hi)|
  {
    hide DuePlaces, Within;
    if dates == [] {
      NoDuePlaces(lo, hi);
    } else {
      var n := |dates| - 1;
      ChargesCounted(amount, dates[..n], lo, hi);
      assert dates == dates[..n] + [dates[n]];
      SumByAppend(ChargeIf(amount, lo, hi), dates[..n], dates[n]);
      OneMoreDay(dates[..n], dates[n], lo, hi);
    }
  }

  lemma NoDuePlaces(lo: Date, hi: Date)
    requires Valid(lo) && Valid(hi)
    ensures DuePlaces([], lo, hi) == {}
  {
  }

  lemma {:induction false} TotalsDue(spends: seq<Spend>, lo: Date, hi: Date)
    requires Valid(lo) && Valid(hi)
    ensures SumBy(OneTimeIn(lo, hi), spends) == SumBy(Due(lo, hi, true), spends)
    ensures SumBy(RecurringIn(lo, hi), spends) == SumBy(Due(lo, hi, false), spends)
  {
    hide Ordinal, ChargeIf;
    if spends != [] {
      TotalsDue(spends[1..], lo, hi);
      if ValidSpend(spends[0]) {
        DatesValid(spends[0]);
        ChargesCounted(spends[0].amount, Dates(spends[0]), lo, hi);
      }
    }
  }

  /** A period starts its number of months after the start date and ends the day before a month later; its totals are
    the amounts of its kind times the days due in it; and it ends with what the period before it left, less both
    totals. */
  lemma PeriodFigures(inputs: Inputs, i: nat)
    requires ValidInputs(inputs)
    ensures var p := ExpectedPeriod(inputs, i);
            && p.index == i && Valid(p.start) && Valid(p.end)
            && IsOccurrence(inputs.startDate, Monthly, i, p.start)
            && (exists stop :: IsOccurrence(p.start, Monthly, 1, stop) && Ordinal(p.end) == Ordinal(stop) - 1)
            && p.oneTimeTotal == SumBy(Due(p.start, p.end, true), inputs.spends)
            && p.recurringTotal == SumBy(Due(p.start, p.end, false), inputs.spends)
            && p.totalSpend == p.oneTimeTotal + p.recurringTotal
            && p.endingLiquidity == (if i == 0 then inputs.startingLiquidity
                                     else ExpectedPeriod(inputs, i - 1).endingLiquidity) - p.totalSpend
  {
    hide AddMonths, Ordinal, OneTimeIn, RecurringIn, Due, FromOrdinal, IsOccurrence;
    var start := inputs.startDate;
    var lo, hi := PeriodStart(start, i), PeriodEnd(start, i);
    PeriodBounds(start, i);
    TotalsDue(inputs.spends, lo, hi);
    OccurrencesSpaced(start, Monthly, i, i);
    OccurrencesSpaced(lo, Monthly, 1, 1);
    PrevDayIsOrdinalMinusOne(PeriodStop(start, i));
    OrdinalOfFromOrdinal(Ordinal(PeriodStop(start, i)) - 1);
    assert IsOccurrence(lo, Monthly, 1, PeriodStop(start, i));
    assert ChargedThrough(inputs, i + 1) == ChargedThrough(inputs, i) + PeriodTotal(inputs, i);
    assert i == 0 ==> ChargedThrough(inputs, i) == 0;
  }

  // ------------------------------------------------------------------ conservation

  /** What a spend costs over the days picked out by `hit`. */
  ghost function Cost(s: Spend, hit: Date -> bool): int
    requires ValidSpend(s)
  {
    CostOf(s.amount, Dates(s), hit)
  }

  ghost function CostOf(amount: int, dates: seq<Date>, hit: Date -> bool): int {
    if dates == [] then 0 else (if hit(dates[0]) then amount else 0) + CostOf(amount, dates[1..], hit)
  }

  ghost function TotalCost(spends: seq<Spend>, hit: Date -> bool): int
    requires forall s :: s in spends ==> ValidSpend(s)
  {
    if spends == [] then 0 else Cost(spends[0], hit) + TotalCost(spends[1..], hit)
  }

  ghost function CoveredBy(start: Date, n: nat): Date -> bool
    requires Valid(start)
  {
    (d: Date) => Covered(start, n, d)
  }

  ghost function HorizonOf(start: Date, n: nat): Date -> bool {
    (d: Date) => InHorizon(start, n, d)
  }

  lemma {:induction false} CostStep(amount: int, dates: seq<Date>, start: Date, n: nat)
    requires Valid(start) && forall d :: d in dates ==> Valid(d)
    ensures CostOf(amount, dates, CoveredBy(start, n + 1))
         == CostOf(amount, dates, CoveredBy(start, n))
            + SumBy(ChargeIf(amount, PeriodStart(start, n), PeriodEnd(start, n)), dates)
  {
    hide AddMonths;
    if dates != [] {
      var d := dates[0];
      CostStep(amount, dates[1..], start, n);
      assert Covered(start, n + 1, d) <==> Covered(start, n, d) || InPeriod(start, n, d);
      if Covered(start, n, d) {
        var i: nat :| i < n && InPeriod(start, i, d);
        PeriodsDisjoint(start, i, n, d);
      }
    }
  }

  lemma {:induction false} TotalCostStep(spends: seq<Spend>, start: Date, n: nat)
    requires Valid(start) && forall s :: s in spends ==> ValidSpend(s)
    ensures var lo, hi := PeriodStart(start, n), PeriodEnd(start, n);
            TotalCost(spends, CoveredBy(start, n + 1)) ==
            TotalCost(spends, CoveredBy(start, n))
            + SumBy(OneTimeIn(lo, hi), spends) + SumBy(RecurringIn(lo, hi), spends)
  {
    if spends != [] {
      var s := spends[0];
      DatesValid(s);
      CostStep(s.amount, Dates(s), start, n);
      TotalCostStep(spends[1..], start, n);
    }
  }

  lemma {:induction false} NothingCovered(amount: int, dates: seq<Date>, start: Date)
    requires Valid(start)
    ensures CostOf(amount, dates, CoveredBy(start, 0)) == 0
  {
    if dates != [] {
      NothingCovered(amount, dates[1..], start);
    }
  }

  lemma {:induction false} NoCostAtFirst(spends: seq<Spend>, start: Date)
    requires Valid(start) && forall s :: s in spends ==> ValidSpend(s)
    ensures TotalCost(spends, CoveredBy(start, 0)) == 0
  {
    if spends != [] {
      NothingCovered(spends[0].amount, Dates(spends[0]), start);
      NoCostAtFirst(spends[1..], start);
    }
  }

  /** After n periods the balance has lost each covered occurrence exactly once, for every start date. */
  lemma {:induction false} ChargedOncePerCoveredDay(inputs: Inputs, n: nat)
    requires ValidInputs(inputs)
    ensures ChargedThrough(inputs, n) == TotalCost(inputs.spends, CoveredBy(inputs.startDate, n))
  {
    hide AddMonths;
    if n == 0 {
      NoCostAtFirst(inputs.spends, inputs.startDate);
    } else {
      ChargedOncePerCoveredDay(inputs, n - 1);
      TotalCostStep(inputs.spends, inputs.startDate, n - 1);
    }
  }

  lemma {:induction false} CostAgrees(amount: int, dates: seq<Date>, f: Date -> bool, g: Date -> bool)
    requires forall d :: d in dates ==> f(d) == g(d)
    ensures CostOf(amount, dates, f) == CostOf(amount, dates, g)
  {
    if dates != [] {
      CostAgrees(amount, dates[1..], f, g);
    }
  }

  lemma {:induction false} TotalCostAgrees(spends: seq<Spend>, f: Date -> bool, g: Date -> bool)
    requires forall s :: s in spends ==> ValidSpend(s)
    requires forall d :: Valid(d) ==> f(d) == g(d)
    ensures TotalCost(spends, f) == TotalCost(spends, g)
  {
    if spends != [] {
      DatesValid(spends[0]);
      CostAgrees(spends[0].amount, Dates(spends[0]), f, g);
      TotalCostAgrees(spends[1..], f, g);
    }
  }

  /** With no clamped boundary, the final balance is the starting one minus exactly the occurrences from the
    start date to the end of the horizon, each charged once. */
  lemma FinalLiquidity(inputs: Inputs)
    requires ValidInputs(inputs) && NeverClamped(inputs.startDate, inputs.horizon)
    ensures ExpectedPeriod(inputs, inputs.horizon - 1).endingLiquidity
         == inputs.startingLiquidity - TotalCost(inputs.spends, HorizonOf(inputs.startDate, inputs.horizon))
  {
    var start, n := inputs.startDate, inputs.horizon;
    TilesExactly(start, n);
    ChargedOncePerCoveredDay(inputs, n);
    TotalCostAgrees(inputs.spends, CoveredBy(start, n), HorizonOf(start, n));
  }

  /** At a clamped boundary some spend inside the horizon is never charged, so the condition is needed. */
  lemma ClampedBoundaryLosesASpend(start: Date, horizon: nat, i: nat, id: string, amount: nat)
    requires Valid(start) && 1 <= i <= horizon && Clamped(start, i) && 0 < amount
    ensures var lost := Spend(id, amount, OneTime(PeriodStop(start, i - 1)));
            var inputs := Inputs(0, start, horizon, [lost]);
            && ValidInputs(inputs)
            && TotalCost([lost], HorizonOf(start, horizon)) == amount
            && ExpectedPeriod(inputs, horizon - 1).endingLiquidity == 0
  {
    var d := PeriodStop(start, i - 1);
    var lost := Spend(id, amount, OneTime(d));
    var inputs := Inputs(0, start, horizon, [lost]);
    GapDay(start, horizon, i);
    ChargedOncePerCoveredDay(inputs, horizon);
    var hit := HorizonOf(start, horizon);
    assert Dates(lost) == [d];
    assert CostOf(amount, [d], hit) == amount + CostOf(amount, [], hit);
    assert TotalCost([lost], hit) == Cost(lost, hit) + TotalCost([], hit);
    var covered := CoveredBy(start, horizon);
    assert CostOf(amount, [d], covered) == 0 + CostOf(amount, [], covered);
    assert TotalCost([lost], covered) == Cost(lost, covered) + TotalCost([], covered);
  }

  ghost predicate ChargesExactlyTheHorizon(start: Date, horizon: nat)
    requires 1 <= horizon
  {
    forall inputs :: ValidInputs(inputs) && inputs.startDate == start && inputs.horizon == horizon ==>
      ExpectedPeriod(inputs, horizon - 1).endingLiquidity
      == inputs.startingLiquidity - TotalCost(inputs.spends, HorizonOf(start, horizon))
  }

  /** The projection charges every occurrence of the horizon exactly once, for all inputs, if and only if no
    month boundary in the horizon meets a clamped day. */
  lemma ChargesExactlyWhenNeverClamped(start: Date, horizon: nat)
    requires Valid(start) && 1 <= horizon
    ensures ChargesExactlyTheHorizon(start, horizon) <==> NeverClamped(start, horizon)
  {
    hide AddMonths, Clamped;
    if NeverClamped(start, horizon) {
      forall inputs | ValidInputs(inputs) && inputs.startDate == start && inputs.horizon == horizon
        ensures ExpectedPeriod(inputs, horizon - 1).endingLiquidity
                == inputs.startingLiquidity - TotalCost(inputs.spends, HorizonOf(start, horizon))
      {
        FinalLiquidity(inputs);
      }
    } else {
      var i: nat :| 1 <= i <= horizon && Clamped(start, i);
      ClampedBoundaryLosesASpend(start, horizon, i, "lost", 1);
    }
  }
}
