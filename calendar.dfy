/**
  Proleptic Gregorian calendar dates, as Python's `datetime.date` keeps them:
  a date is a (year, month, day) triple, `timedelta(days = n)` moves it by n
  days with month and year rollover, and only years 1 to 9999 can be stored.
*/
module Calendar {

  /** `datetime.MINYEAR` and `datetime.MAXYEAR`. */
  const MinYear: int := 1
  const MaxYear: int := 9999

  datatype Date = Date(year: int, month: int, day: int)

  predicate IsLeapYear(y: int) {
    y % 4 == 0 && (y % 100 != 0 || y % 400 == 0)
  }

  function DaysInYear(y: int): int {
    if IsLeapYear(y) then 366 else 365
  }

  function DaysInMonth(y: int, m: int): (n: int)
    requires 1 <= m <= 12
    ensures 28 <= n <= 31
    ensures m == 2 ==> (n == 29 <==> IsLeapYear(y))
  {
    if m == 2 then (if IsLeapYear(y) then 29 else 28)
    else if m == 4 || m == 6 || m == 9 || m == 11 then 30
    else 31
  }

  /** A well-formed calendar date (any year; see InRange for the storable ones). */
  predicate Valid(d: Date) {
    1 <= d.month <= 12 && 1 <= d.day <= DaysInMonth(d.year, d.month)
  }

  /** The dates a Python `date` can hold. */
  predicate InRange(d: Date) {
    MinYear <= d.year <= MaxYear
  }

  /** The day after `d`: end of month rolls to the 1st, end of December to the next year. */
  function NextDay(d: Date): (r: Date)
    requires Valid(d)
    ensures Valid(r)
  {
    if d.day < DaysInMonth(d.year, d.month) then Date(d.year, d.month, d.day + 1)
    else if d.month < 12 then Date(d.year, d.month + 1, 1)
    else Date(d.year + 1, 1, 1)
  }

  /** The day before `d`; undoes NextDay. */
  function PrevDay(d: Date): (r: Date)
    requires Valid(d)
    ensures Valid(r)
    ensures NextDay(r) == d
  {
    if d.day > 1 then Date(d.year, d.month, d.day - 1)
    else if d.month > 1 then Date(d.year, d.month - 1, DaysInMonth(d.year, d.month - 1))
    else Date(d.year - 1, 12, 31)
  }

  lemma PrevOfNext(d: Date)
    requires Valid(d)
    ensures PrevDay(NextDay(d)) == d
  {
  }

  /** `d + timedelta(days = n)`, one day at a time, forwards or backwards. */
  function AddDays(d: Date, n: int): (r: Date)
    requires Valid(d)
    ensures Valid(r)
    decreases if n < 0 then -n else n
  {
    if n == 0 then d
    else if n > 0 then AddDays(NextDay(d), n - 1)
    else AddDays(PrevDay(d), n + 1)
  }

  // ---------------------------------------------------------------------
  // Day numbers: the reference definition of a date's position in time.
  // ---------------------------------------------------------------------

  /** Days in the years before `y` (Python's `_days_before_year`). */
  function DaysBeforeYear(y: int): int {
    var p := y - 1;
    365 * p + p / 4 - p / 100 + p / 400
  }

  /** Days in the months of year `y` before month `m` (Python's `_days_before_month`). */
  function DaysBeforeMonth(y: int, m: int): int
    requires 1 <= m <= 12
  {
    [0, 31, 59, 90, 120, 151, 181, 212, 243, 273, 304, 334][m - 1]
      + (if m > 2 && IsLeapYear(y) then 1 else 0)
  }

  /** Day number with 0001-01-01 as day 1 (Python's `date.toordinal`). */
  function ToOrdinal(d: Date): int
    requires Valid(d)
  {
    DaysBeforeYear(d.year) + DaysBeforeMonth(d.year, d.month) + d.day
  }

  /** One step of a Gregorian cycle length: `y / k` rises by one exactly at multiples of k. */
  lemma DivStep(y: int, k: int)
    requires k == 4 || k == 100 || k == 400
    ensures y / k - (y - 1) / k == if y % k == 0 then 1 else 0
  {
    var q, r := (y - 1) / k, (y - 1) % k;
    if r + 1 < k {
      assert y == k * q + (r + 1);
    } else {
      assert y == k * (q + 1) + 0;
    }
  }

  /** `k * t` leaves no remainder modulo k. */
  lemma MultipleMod(t: int, k: int)
    requires k == 4 || k == 100
    ensures (k * t) % k == 0
  {
  }

  /** Every 100th year is a 4th year, and every 400th year a 100th year. */
  lemma CenturyDivisibility(y: int)
    ensures y % 100 == 0 ==> y % 4 == 0
    ensures y % 400 == 0 ==> y % 100 == 0
  {
    if y % 100 == 0 {
      assert y == 4 * (25 * (y / 100));
      MultipleMod(25 * (y / 100), 4);
    }
    if y % 400 == 0 {
      assert y == 100 * (4 * (y / 400));
      MultipleMod(4 * (y / 400), 100);
    }
  }

  /** The leap-day count of one year: +1 every 4th, -1 every 100th, +1 every 400th. */
  lemma LeapDayCount(y: int)
    ensures (if y % 4 == 0 then 1 else 0) - (if y % 100 == 0 then 1 else 0) + (if y % 400 == 0 then 1 else 0)
            == if IsLeapYear(y) then 1 else 0
  {
    CenturyDivisibility(y);
  }

  lemma {:induction false} DaysBeforeNextYear(y: int)
    ensures DaysBeforeYear(y + 1) == DaysBeforeYear(y) + DaysInYear(y)
  {
    DivStep(y, 4);
    DivStep(y, 100);
    DivStep(y, 400);
    LeapDayCount(y);
  }

  lemma {:induction false} MonthEnd(d: Date)
    requires Valid(d)
    ensures DaysBeforeMonth(d.year, d.month) + d.day
            <= DaysBeforeMonth(d.year, d.month) + DaysInMonth(d.year, d.month)
            == if d.month < 12 then DaysBeforeMonth(d.year, d.month + 1) else DaysInYear(d.year)
  {
  }

  /** Moving to the next day adds exactly one to the day number. */
  lemma {:induction false} NextDayOrdinal(d: Date)
    requires Valid(d)
    ensures ToOrdinal(NextDay(d)) == ToOrdinal(d) + 1
  {
    MonthEnd(d);
    if d.day == DaysInMonth(d.year, d.month) && d.month == 12 {
      DaysBeforeNextYear(d.year);
    }
  }

  /** Adding n days adds exactly n to the day number, in either direction. */
  lemma {:induction false} AddDaysOrdinal(d: Date, n: int)
    requires Valid(d)
    ensures ToOrdinal(AddDays(d, n)) == ToOrdinal(d) + n
    decreases if n < 0 then -n else n
  {
    if n > 0 {
      NextDayOrdinal(d);
      AddDaysOrdinal(NextDay(d), n - 1);
    } else if n < 0 {
      NextDayOrdinal(PrevDay(d));
      AddDaysOrdinal(PrevDay(d), n + 1);
    }
  }

  lemma StepForward(d: Date, m: int)
    requires Valid(d)
    ensures AddDays(NextDay(d), m) == AddDays(d, m + 1)
  {
    if m < 0 {
      PrevOfNext(d);
    }
  }

  lemma StepBack(d: Date, m: int)
    requires Valid(d)
    ensures AddDays(PrevDay(d), m) == AddDays(d, m - 1)
  {
    if m > 0 {
      assert NextDay(PrevDay(d)) == d;
    }
  }

  /** Two day advances compose: (d + a days) + b days == d + (a + b) days. */
  lemma {:induction false} AddDaysAdd(d: Date, a: int, b: int)
    requires Valid(d)
    ensures AddDays(AddDays(d, a), b) == AddDays(d, a + b)
    decreases if a < 0 then -a else a
  {
    if a > 0 {
      AddDaysAdd(NextDay(d), a - 1, b);
      StepForward(d, a - 1 + b);
    } else if a < 0 {
      AddDaysAdd(PrevDay(d), a + 1, b);
      StepBack(d, a + 1 + b);
    }
  }
  /** `date.max.toordinal()`: the day number of 9999-12-31. */
  const MaxOrdinal: int := 3652059

  lemma {:induction false} DaysBeforeYearGrows(a: int, b: int)
    requires a <= b
    ensures DaysBeforeYear(a) + 365 * (b - a) <= DaysBeforeYear(b)
    decreases b - a
  {
    if a < b {
      DaysBeforeNextYear(a);
      DaysBeforeYearGrows(a + 1, b);
    }
  }

  lemma DaysBeforeMonthGrows(y: int, m1: int, m2: int)
    requires 1 <= m1 < m2 <= 12
    ensures DaysBeforeMonth(y, m1) + DaysInMonth(y, m1) <= DaysBeforeMonth(y, m2)
  {
  }

  /** A date's day number lies strictly after the years before it and within its own year. */
  lemma {:induction false} OrdinalWithinYear(d: Date)
    requires Valid(d)
    ensures DaysBeforeYear(d.year) < ToOrdinal(d) <= DaysBeforeYear(d.year + 1)
  {
    MonthEnd(d);
    DaysBeforeNextYear(d.year);
    if d.month < 12 {
      DaysBeforeMonthGrows(d.year, d.month, 12);
      assert DaysBeforeMonth(d.year, 12) + 31 == DaysInYear(d.year);
    }
  }

  /** Distinct valid dates have distinct day numbers. */
  lemma {:induction false} OrdinalInjective(d1: Date, d2: Date)
    requires Valid(d1) && Valid(d2)
    requires ToOrdinal(d1) == ToOrdinal(d2)
    ensures d1 == d2
  {
    OrdinalWithinYear(d1);
    OrdinalWithinYear(d2);
    if d1.year < d2.year {
      DaysBeforeYearGrows(d1.year + 1, d2.year);
      assert false;
    } else if d2.year < d1.year {
      DaysBeforeYearGrows(d2.year + 1, d1.year);
      assert false;
    }
    if d1.month < d2.month {
      DaysBeforeMonthGrows(d1.year, d1.month, d2.month);
      assert false;
    } else if d2.month < d1.month {
      DaysBeforeMonthGrows(d1.year, d2.month, d1.month);
      assert false;
    }
  }

  /** `d + n days` is the one valid date whose day number is n more than d's. */
  lemma AddDaysUnique(d: Date, n: int, e: Date)
    requires Valid(d) && Valid(e)
    ensures ToOrdinal(e) == ToOrdinal(d) + n <==> AddDays(d, n) == e
  {
    AddDaysOrdinal(d, n);
    if ToOrdinal(e) == ToOrdinal(d) + n {
      OrdinalInjective(AddDays(d, n), e);
    }
  }

  /** The storable dates are exactly the day numbers 1 .. MaxOrdinal. */
  lemma {:induction false} InRangeOrdinal(d: Date)
    requires Valid(d)
    ensures InRange(d) <==> 1 <= ToOrdinal(d) <= MaxOrdinal
  {
    OrdinalWithinYear(d);
    assert DaysBeforeYear(1) == 0;
    assert DaysBeforeYear(MaxYear + 1) == MaxOrdinal;
    if d.year < MinYear {
      DaysBeforeYearGrows(d.year + 1, MinYear);
    } else if d.year > MaxYear {
      DaysBeforeYearGrows(MaxYear + 1, d.year);
    } else {
      DaysBeforeYearGrows(MinYear, d.year);
      DaysBeforeYearGrows(d.year + 1, MaxYear + 1);
    }
  }
}
