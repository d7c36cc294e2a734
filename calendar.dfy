/**
  Calendar readings in the single fixed time zone the watcher runs in.

  A `DateTime` is the list of wall-clock fields that Go's `time.Time` exposes
  (year, month, day, hour, minute, second). Go compares times with `Equal`,
  which compares instants; `Instant` gives the instant of a reading as a
  count of seconds in the proleptic Gregorian calendar, and `InstantInjective`
  proves that two valid readings denote the same instant only when all their
  fields agree.
 */
module Calendar {

  datatype DateTime = DateTime(year: int, month: int, day: int, hour: int, minute: int, second: int)

  /** Go's zero `time.Time`: January 1 of year 1, 00:00:00. */
  const Zero := DateTime(1, 1, 1, 0, 0, 0)

  /** `time.Time.IsZero`. */
  predicate IsZero(t: DateTime) {
    t == Zero
  }

  predicate IsLeapYear(y: int) {
    y % 4 == 0 && (y % 100 != 0 || y % 400 == 0)
  }

  function DaysIn(month: int, year: int): (n: int)
    requires 1 <= month <= 12
    ensures 28 <= n <= 31
    ensures month == 2 ==> (n == 29 <==> IsLeapYear(year))
  {
    if month == 2 then (if IsLeapYear(year) then 29 else 28)
    else if month == 4 || month == 6 || month == 9 || month == 11 then 30
    else 31
  }

  /** A reading whose fields are all in range, as every parsed `time.Time` is. */
  predicate Valid(t: DateTime) {
    && 1 <= t.month <= 12
    && 1 <= t.day <= DaysIn(t.month, t.year)
    && 0 <= t.hour < 24
    && 0 <= t.minute < 60
    && 0 <= t.second < 60
  }

  lemma ZeroIsValid()
    ensures Valid(Zero)
  {
  }

  function DaysInYear(y: int): int {
    if IsLeapYear(y) then 366 else 365
  }

  /** Days from January 1 of year 1 to January 1 of year `y`. */
  function DaysBeforeYear(y: int): int {
    var p := y - 1;
    365 * p + p / 4 - p / 100 + p / 400
  }

  /** Days from January 1 of year `y` to the first day of month `m`. */
  function DaysBeforeMonth(y: int, m: int): (n: int)
    requires 1 <= m <= 13
    ensures 0 <= n
    decreases m
  {
    if m == 1 then 0 else DaysBeforeMonth(y, m - 1) + DaysIn(m - 1, y)
  }

  /** Days from January 1 of year 1 to the day of `t`. */
  function DayNumber(t: DateTime): int
    requires Valid(t)
  {
    DaysBeforeYear(t.year) + DaysBeforeMonth(t.year, t.month) + (t.day - 1)
  }

  function SecondOfDay(t: DateTime): int {
    t.hour * 3600 + t.minute * 60 + t.second
  }

  /** Seconds from 0001-01-01 00:00:00 to `t`. */
  function Instant(t: DateTime): int
    requires Valid(t)
  {
    DayNumber(t) * 86400 + SecondOfDay(t)
  }

  /** `time.Time.Equal`: the two readings denote the same instant. */
  predicate SameInstant(a: DateTime, b: DateTime)
    requires Valid(a) && Valid(b)
  {
    Instant(a) == Instant(b)
  }

  /** A value written as `d * k + r` with `0 <= r < k` has one such writing only. */
  lemma SplitUnique(d1: int, r1: int, d2: int, r2: int, k: int)
    requires 0 < k && 0 <= r1 < k && 0 <= r2 < k
    requires d1 * k + r1 == d2 * k + r2
    ensures d1 == d2 && r1 == r2
  {
    if d1 != d2 {
      var lo, hi := if d1 < d2 then d1 else d2, if d1 < d2 then d2 else d1;
      MulMonotone(lo + 1, hi, k);
    }
  }

  lemma MulMonotone(a: int, b: int, k: int)
    requires a <= b && 0 < k
    ensures a * k <= b * k
  {
  }

  lemma DivStep(q: int)
    ensures q / 4 - (q - 1) / 4 == (if q % 4 == 0 then 1 else 0)
    ensures q / 100 - (q - 1) / 100 == (if q % 100 == 0 then 1 else 0)
    ensures q / 400 - (q - 1) / 400 == (if q % 400 == 0 then 1 else 0)
  {
  }

  lemma DaysBeforeNextYear(y: int)
    ensures DaysBeforeYear(y + 1) == DaysBeforeYear(y) + DaysInYear(y)
  {
    DivStep(y);
  }

  /** Years are laid end to end: every day of an earlier year comes before every day of a later one. */
  lemma {:induction false} DaysBeforeYearMonotone(a: int, b: int)
    requires a < b
    ensures DaysBeforeYear(a + 1) <= DaysBeforeYear(b)
    decreases b - a
  {
    if a + 1 < b {
      DaysBeforeYearMonotone(a, b - 1);
      DaysBeforeNextYear(b - 1);
    }
  }

  lemma DaysBeforeMonthMonotone(y: int, a: int, b: int)
    requires 1 <= a < b <= 13
    ensures DaysBeforeMonth(y, a) + DaysIn(a, y) <= DaysBeforeMonth(y, b)
    decreases b - a
  {
    if a + 1 < b {
      DaysBeforeMonthMonotone(y, a, b - 1);
    }
  }

  lemma DaysBeforeMonthYear(y: int)
    ensures DaysBeforeMonth(y, 13) == DaysInYear(y)
  {
  }

  /** The day number of a valid reading lies within its own year. */
  lemma DayNumberInYear(t: DateTime)
    requires Valid(t)
    ensures DaysBeforeYear(t.year) <= DayNumber(t) < DaysBeforeYear(t.year + 1)
  {
    DaysBeforeNextYear(t.year);
    DaysBeforeMonthYear(t.year);
    if t.month < 12 {
      DaysBeforeMonthMonotone(t.year, t.month, 13);
    }
  }

  lemma {:induction false} DayNumberInjective(a: DateTime, b: DateTime)
    requires Valid(a) && Valid(b)
    requires DayNumber(a) == DayNumber(b)
    ensures a.year == b.year && a.month == b.month && a.day == b.day
  {
    DayNumberInYear(a);
    DayNumberInYear(b);
    if a.year < b.year {
      DaysBeforeYearMonotone(a.year, b.year);
    } else if b.year < a.year {
      DaysBeforeYearMonotone(b.year, a.year);
    }
    assert a.year == b.year;
    if a.month < b.month {
      DaysBeforeMonthMonotone(a.year, a.month, b.month);
    } else if b.month < a.month {
      DaysBeforeMonthMonotone(a.year, b.month, a.month);
    }
  }

  /** Two valid readings denote the same instant exactly when every field agrees. */
  lemma {:induction false} InstantInjective(a: DateTime, b: DateTime)
    requires Valid(a) && Valid(b)
    ensures SameInstant(a, b) <==> a == b
  {
    if Instant(a) == Instant(b) {
      SplitUnique(DayNumber(a), SecondOfDay(a), DayNumber(b), SecondOfDay(b), 86400);
      DayNumberInjective(a, b);
      SplitUnique(a.hour, a.minute * 60 + a.second, b.hour, b.minute * 60 + b.second, 3600);
      SplitUnique(a.minute, a.second, b.minute, b.second, 60);
    }
  }
}
