/** Python's `datetime.date`: the proleptic Gregorian calendar, ordinals, and the month arithmetic of
  src/capital_os/domain/simulation/engine.py. */
module Calendar {
  import opened Ordering

  datatype Date = Date(year: int, month: int, day: int)

  predicate IsLeap(year: int) {
    year % 4 == 0 && (year % 100 != 0 || year % 400 == 0)
  }

  function DaysInMonth(year: int, month: int): int {
    if month == 2 then (if IsLeap(year) then 29 else 28)
    else if month in {4, 6, 9, 11} then 30
    else 31
  }

  predicate Valid(d: Date) {
    1 <= d.year && 1 <= d.month <= 12 && 1 <= d.day <= DaysInMonth(d.year, d.month)
  }

  type Day = d: Date | Valid(d) witness Date(1, 1, 1)

  /** Calendar order: by year, then month, then day. */
  predicate Before(a: Date, b: Date) {
    a.year < b.year || (a.year == b.year && (a.month < b.month || (a.month == b.month && a.day < b.day)))
  }

  predicate NotAfter(a: Date, b: Date) {
    a == b || Before(a, b)
  }

  function DaysBeforeYear(year: int): int {
    var y := year - 1;
    y * 365 + y / 4 - y / 100 + y / 400
  }

  function DaysBeforeMonth(year: int, month: int): int
    requires 1 <= month <= 12
    decreases month
  {
    if month == 1 then 0 else DaysBeforeMonth(year, month - 1) + DaysInMonth(year, month - 1)
  }

  /** date.toordinal: 0001-01-01 is day 1. */
  function Ordinal(d: Date): int
    requires Valid(d)
  {
    DaysBeforeYear(d.year) + DaysBeforeMonth(d.year, d.month) + d.day
  }

  function NextDay(d: Date): (next: Date)
    requires Valid(d)
    ensures Valid(next) && Before(d, next)
  {
    if d.day < DaysInMonth(d.year, d.month) then d.(day := d.day + 1)
    else if d.month < 12 then Date(d.year, d.month + 1, 1)
    else Date(d.year + 1, 1, 1)
  }

  /** date.fromordinal. */
  function FromOrdinal(n: int): (d: Date)
    requires 1 <= n
    ensures Valid(d)
    decreases n
  {
    if n == 1 then Date(1, 1, 1) else NextDay(FromOrdinal(n - 1))
  }

  // ------------------------------------------------------------------ ordinals are the calendar order

  lemma LeapStep(y: int)
    ensures (y + 1) / 4 == y / 4 + (if (y + 1) % 4 == 0 then 1 else 0)
    ensures (y + 1) / 100 == y / 100 + (if (y + 1) % 100 == 0 then 1 else 0)
    ensures (y + 1) / 400 == y / 400 + (if (y + 1) % 400 == 0 then 1 else 0)
  {
  }

  lemma LeapNesting(year: int)
    ensures year % 400 == 0 ==> year % 100 == 0
    ensures year % 100 == 0 ==> year % 4 == 0
  {
  }

  lemma YearLength(year: int)
    ensures DaysBeforeYear(year + 1) == DaysBeforeYear(year) + (if IsLeap(year) then 366 else 365)
  {
    LeapStep(year - 1);
    LeapNesting(year);
  }

  lemma {:induction false} DaysBeforeMonthMonotone(year: int, m: int, n: int)
    requires 1 <= m < n <= 12
    ensures DaysBeforeMonth(year, m) + DaysInMonth(year, m) <= DaysBeforeMonth(year, n)
    decreases n
  {
    if m < n - 1 {
      DaysBeforeMonthMonotone(year, m, n - 1);
    }
  }

  lemma DaysInYear(year: int)
    ensures DaysBeforeMonth(year, 12) + 31 == if IsLeap(year) then 366 else 365
  {
    assert DaysBeforeMonth(year, 3) == 31 + DaysInMonth(year, 2);
    assert DaysBeforeMonth(year, 6) == DaysBeforeMonth(year, 3) + 92;
    assert DaysBeforeMonth(year, 9) == DaysBeforeMonth(year, 6) + 92;
    assert DaysBeforeMonth(year, 12) == DaysBeforeMonth(year, 9) + 91;
  }

  lemma {:induction false} DaysBeforeYearMonotone(y: int, z: int)
    requires y < z
    ensures DaysBeforeYear(y) + (if IsLeap(y) then 366 else 365) <= DaysBeforeYear(z)
    decreases z - y
  {
    YearLength(z - 1);
    if y < z - 1 {
      DaysBeforeYearMonotone(y, z - 1);
    }
  }

  /** The day of the year fits the year. */
  lemma DayOfYearBound(d: Date)
    requires Valid(d)
    ensures 1 <= DaysBeforeMonth(d.year, d.month) + d.day <= if IsLeap(d.year) then 366 else 365
  {
    DaysInYear(d.year);
    if d.month < 12 {
      DaysBeforeMonthMonotone(d.year, d.month, 12);
    }
    if 1 < d.month {
      DaysBeforeMonthMonotone(d.year, 1, d.month);
    }
  }

  lemma OrdinalIncreases(a: Date, b: Date)
    requires Valid(a) && Valid(b) && Before(a, b)
    ensures Ordinal(a) < Ordinal(b)
  {
    if a.year < b.year {
      DaysBeforeYearMonotone(a.year, b.year);
      DayOfYearBound(a);
      DayOfYearBound(b);
    } else if a.month < b.month {
      DaysBeforeMonthMonotone(a.year, a.month, b.month);
    }
  }

  /** Comparing dates is comparing their ordinals. */
  lemma OrdinalOrder(a: Date, b: Date)
    requires Valid(a) && Valid(b)
    ensures Before(a, b) <==> Ordinal(a) < Ordinal(b)
    ensures a == b <==> Ordinal(a) == Ordinal(b)
  {
    if Before(a, b) {
      OrdinalIncreases(a, b);
    } else if Before(b, a) {
      OrdinalIncreases(b, a);
    }
  }

  lemma OrdinalNextDay(d: Date)
    requires Valid(d)
    ensures Ordinal(NextDay(d)) == Ordinal(d) + 1
  {
    if d.day == DaysInMonth(d.year, d.month) && d.month == 12 {
      YearLength(d.year);
      DaysInYear(d.year);
    }
  }

  lemma {:induction false} OrdinalOfFromOrdinal(n: int)
    requires 1 <= n
    ensures Ordinal(FromOrdinal(n)) == n
    decreases n
  {
    if n != 1 {
      OrdinalOfFromOrdinal(n - 1);
      OrdinalNextDay(FromOrdinal(n - 1));
    }
  }

  lemma OrdinalPositive(d: Date)
    requires Valid(d)
    ensures 1 <= Ordinal(d)
  {
    DayOfYearBound(d);
    if 1 < d.year {
      DaysBeforeYearMonotone(1, d.year);
    }
  }

  /** The ordinal and the date determine each other. */
  lemma OrdinalRoundTrip(d: Date)
    requires Valid(d)
    ensures 1 <= Ordinal(d) && FromOrdinal(Ordinal(d)) == d
  {
    OrdinalPositive(d);
    OrdinalOfFromOrdinal(Ordinal(d));
    OrdinalOrder(FromOrdinal(Ordinal(d)), d);
  }

  /** A date minus one day; 0001-01-01 has no predecessor. */
  function PrevDay(d: Date): (prev: Date)
    requires Valid(d) && d != Date(1, 1, 1)
    ensures Valid(prev) && Before(prev, d)
  {
    if d.day > 1 then d.(day := d.day - 1)
    else if d.month > 1 then Date(d.year, d.month - 1, DaysInMonth(d.year, d.month - 1))
    else Date(d.year - 1, 12, 31)
  }

  /** Nothing lies between a day and the day before it. */
  lemma PrevDayAdjacent(d: Date, x: Date)
    requires Valid(d) && Valid(x) && x != Date(1, 1, 1)
    ensures NotAfter(d, PrevDay(x)) <==> Before(d, x)
  {
  }

  /** Taking a day off is taking one off the ordinal. */
  lemma PrevDayIsOrdinalMinusOne(d: Date)
    requires Valid(d) && d != Date(1, 1, 1)
    ensures 2 <= Ordinal(d) && PrevDay(d) == FromOrdinal(Ordinal(d) - 1)
  {
    var p := PrevDay(d);
    assert NextDay(p) == d;
    OrdinalNextDay(p);
    OrdinalRoundTrip(p);
  }

  // ------------------------------------------------------------------ months

  /** Months counted from year 0. */
  function MonthIndex(d: Date): int {
    12 * d.year + d.month - 1
  }

  /** _add_months: move by whole months, clamping the day to the month reached. */
  function AddMonths(source: Date, months: int): Date {
    var year := source.year + (source.month - 1 + months) / 12;
    var month := (source.month - 1 + months) % 12 + 1;
    var day := source.day;
    var clamped :=
      if month == 2 && day > 28 then (if IsLeap(year) then 29 else 28)
      else if month in {4, 6, 9, 11} && day > 30 then 30
      else day;
    Date(year, month, clamped)
  }

  function MonthLength(index: int): int {
    DaysInMonth(index / 12, index % 12 + 1)
  }

  /** What adding months means: that many months on, on the same day or the month's last. */
  lemma AddMonthsMeaning(d: Date, months: nat)
    requires Valid(d)
    ensures Valid(AddMonths(d, months))
    ensures MonthIndex(AddMonths(d, months)) == MonthIndex(d) + months
    ensures AddMonths(d, months).day == Min(d.day, MonthLength(MonthIndex(d) + months))
  {
    var r := AddMonths(d, months);
    var n := d.month - 1 + months;
    assert n == 12 * (n / 12) + n % 12;
    assert MonthIndex(r) / 12 == r.year && MonthIndex(r) % 12 == r.month - 1;
  }

  /** Month index and day order dates like the calendar does. */
  lemma MonthIndexOrder(a: Date, b: Date)
    requires Valid(a) && Valid(b)
    ensures Before(a, b) <==> MonthIndex(a) < MonthIndex(b) || (MonthIndex(a) == MonthIndex(b) && a.day < b.day)
    ensures MonthIndex(a) == MonthIndex(b) && a.day == b.day ==> a == b
  {
  }

  // ------------------------------------------------------------------ the Gregorian rule

  /** The day number without a calendar table: years begun in March, their months from a linear rule, and a leap day
    every 4 years but 3 times in 400.  1970-01-01 comes out as day 719163. */
  lemma OrdinalClosedForm(d: Date)
    requires Valid(d)
    ensures var year := if d.month <= 2 then d.year - 1 else d.year;
            var month := (d.month + 9) % 12;
            Ordinal(d) == 365 * year + year / 4 - year / 100 + year / 400 + (153 * month + 2) / 5 + d.day - 306
    ensures Ordinal(Date(1970, 1, 1)) == 719163
  {
    hide IsLeap, DaysBeforeMonth;
    YearLength(d.year);
    MonthsBefore(d.year, d.month);
    FromMarch(d.month);
    MonthsBefore(1970, 1);
  }

  /** Days from 1 March to the first of a month, in a year that begins in March. */
  lemma FromMarch(month: int)
    requires 1 <= month <= 12
    ensures (153 * ((month + 9) % 12) + 2) / 5 ==
            [306, 337, 0, 31, 61, 92, 122, 153, 184, 214, 245, 275][month - 1]
  {
    assert month in {1, 2, 3, 4, 5, 6, 7, 8, 9, 10, 11, 12};
  }

  lemma MonthsBefore(year: int, month: int)
    requires 1 <= month <= 12
    ensures var leap := if IsLeap(year) then 1 else 0;
            DaysBeforeMonth(year, month) ==
            [0, 31, 59 + leap, 90 + leap, 120 + leap, 151 + leap, 181 + leap, 212 + leap, 243 + leap, 273 + leap,
             304 + leap, 334 + leap][month - 1]
    decreases month
  {
    if month > 1 {
      MonthsBefore(year, month - 1);
    }
  }
}
