/** The proleptic Gregorian calendar as Python's `date` type implements it: a date is
    its ordinal (0001-01-01 is day 1, 9999-12-31 is the last representable day), and a
    civil (year, month, day) triple converts to and from that ordinal. Weekdays count
    from Monday = 0, as `date.weekday()` does. */
module Dates {

  /** Ordinal of 9999-12-31, the largest date Python can represent. */
  const MAX_ORDINAL := 3652059

  /** A representable date, as its ordinal. */
  type Date = n: int | 1 <= n <= MAX_ORDINAL witness 1

  datatype Civil = Civil(year: int, month: int, day: int)

  predicate IsLeap(y: int) {
    y % 4 == 0 && (y % 100 != 0 || y % 400 == 0)
  }

  /** Length of month `m` of year `y`, as `calendar.monthrange` reports it. */
  function DaysInMonth(y: int, m: int): (n: int)
    requires 1 <= m <= 12
    ensures 28 <= n <= 31
  {
    if m == 2 then (if IsLeap(y) then 29 else 28)
    else if m == 4 || m == 6 || m == 9 || m == 11 then 30
    else 31
  }

  function DaysInYear(y: int): int {
    if IsLeap(y) then 366 else 365
  }

  /** Number of days in the years 1 .. y-1. */
  function DaysBeforeYear(y: int): int
    requires y >= 1
  {
    var p := y - 1;
    p * 365 + p / 4 - p / 100 + p / 400
  }

  /** Number of days in year `y` before the first of month `m`. */
  function DaysBeforeMonth(y: int, m: int): int
    requires 1 <= m <= 12
  {
    [0, 31, 59, 90, 120, 151, 181, 212, 243, 273, 304, 334][m - 1]
      + (if m > 2 && IsLeap(y) then 1 else 0)
  }

  /** A triple Python's `date(year, month, day)` accepts. */
  predicate ValidCivil(c: Civil) {
    && 1 <= c.year <= 9999
    && 1 <= c.month <= 12
    && 1 <= c.day <= DaysInMonth(c.year, c.month)
  }

  lemma DaysBeforeYearStep(y: int)
    requires y >= 1
    ensures DaysBeforeYear(y + 1) == DaysBeforeYear(y) + DaysInYear(y)
  {
    var p := y - 1;
    assert y / 4 - p / 4 == (if y % 4 == 0 then 1 else 0);
    assert y / 100 - p / 100 == (if y % 100 == 0 then 1 else 0);
    assert y / 400 - p / 400 == (if y % 400 == 0 then 1 else 0);
  }

  lemma {:induction false} DaysBeforeYearMono(a: int, b: int)
    requires 1 <= a <= b
    ensures DaysBeforeYear(a) + 365 * (b - a) <= DaysBeforeYear(b)
    decreases b - a
  {
    if a < b {
      DaysBeforeYearMono(a, b - 1);
      DaysBeforeYearStep(b - 1);
    }
  }

  lemma DaysBeforeMonthStep(y: int, m: int)
    requires 1 <= m < 12
    ensures DaysBeforeMonth(y, m + 1) == DaysBeforeMonth(y, m) + DaysInMonth(y, m)
  {
  }

  lemma EndOfYear(y: int)
    ensures DaysBeforeMonth(y, 12) + DaysInMonth(y, 12) == DaysInYear(y)
  {
  }

  lemma {:induction false} DaysBeforeMonthMono(y: int, a: int, b: int)
    requires 1 <= a < b <= 12
    ensures DaysBeforeMonth(y, a) + DaysInMonth(y, a) <= DaysBeforeMonth(y, b)
    decreases b - a
  {
    DaysBeforeMonthStep(y, b - 1);
    if a < b - 1 {
      DaysBeforeMonthMono(y, a, b - 1);
    }
  }

  lemma MonthWithinYear(y: int, m: int)
    requires 1 <= m <= 12
    ensures DaysBeforeMonth(y, m) + DaysInMonth(y, m) <= DaysInYear(y)
  {
    EndOfYear(y);
    if m < 12 {
      DaysBeforeMonthMono(y, m, 12);
    }
  }

  /** Ordinal of a civil date (Python's `date.toordinal`); every valid triple has a
      representable ordinal. */
  function FromCivil(c: Civil): (n: Date)
    requires ValidCivil(c)
  {
    DaysBeforeYearStep(c.year);
    DaysBeforeYearMono(c.year + 1, 10000);
    MonthWithinYear(c.year, c.month);
    DaysBeforeYear(c.year) + DaysBeforeMonth(c.year, c.month) + c.day
  }

  /** The ordinal of a date lies inside its year, and inside its month within that year. */
  lemma FromCivilWithinYear(c: Civil)
    requires ValidCivil(c)
    ensures DaysBeforeYear(c.year) < FromCivil(c) <= DaysBeforeYear(c.year + 1)
    ensures DaysBeforeMonth(c.year, c.month) < FromCivil(c) - DaysBeforeYear(c.year)
                                             <= DaysBeforeMonth(c.year, c.month) + DaysInMonth(c.year, c.month)
  {
    DaysBeforeYearStep(c.year);
    MonthWithinYear(c.year, c.month);
  }

  /** The year holding ordinal `n`, searched from year `y` upwards. */
  function FindYear(n: Date, y: int): (r: int)
    requires 1 <= y <= 9999 && DaysBeforeYear(y) < n
    ensures y <= r <= 9999 && DaysBeforeYear(r) < n <= DaysBeforeYear(r + 1)
    decreases 9999 - y
  {
    if n <= DaysBeforeYear(y + 1) then y else FindYear(n, y + 1)
  }

  /** The month holding day-of-year `r` of year `y`, searched from month `m` upwards. */
  function FindMonth(y: int, r: int, m: int): (res: int)
    requires 1 <= m <= 12 && DaysBeforeMonth(y, m) < r <= DaysInYear(y)
    ensures m <= res <= 12
    ensures DaysBeforeMonth(y, res) < r <= DaysBeforeMonth(y, res) + DaysInMonth(y, res)
    decreases 12 - m
  {
    if r <= DaysBeforeMonth(y, m) + DaysInMonth(y, m) then m
    else
      EndOfYear(y);
      DaysBeforeMonthStep(y, m);
      FindMonth(y, r, m + 1)
  }

  /** Civil date of an ordinal (Python's `date.fromordinal`). */
  function ToCivil(n: Date): Civil
  {
    var y := FindYear(n, 1);
    DaysBeforeYearStep(y);
    var m := FindMonth(y, n - DaysBeforeYear(y), 1);
    Civil(y, m, n - DaysBeforeYear(y) - DaysBeforeMonth(y, m))
  }

  /** The civil date of an ordinal is a valid triple that converts back to the same
      ordinal. */
  lemma ToCivilRoundTrip(n: Date)
    ensures ValidCivil(ToCivil(n)) && FromCivil(ToCivil(n)) == n
  {
    var y := FindYear(n, 1);
    DaysBeforeYearStep(y);
    var m := FindMonth(y, n - DaysBeforeYear(y), 1);
  }

  /** Distinct civil dates have distinct ordinals. */
  lemma CivilInjective(a: Civil, b: Civil)
    requires ValidCivil(a) && ValidCivil(b)
    requires FromCivil(a) == FromCivil(b)
    ensures a == b
  {
    FromCivilWithinYear(a);
    FromCivilWithinYear(b);
    if a.year < b.year {
      DaysBeforeYearMono(a.year + 1, b.year);
    } else if b.year < a.year {
      DaysBeforeYearMono(b.year + 1, a.year);
    } else if a.month < b.month {
      DaysBeforeMonthMono(a.year, a.month, b.month);
    } else if b.month < a.month {
      DaysBeforeMonthMono(a.year, b.month, a.month);
    }
  }

  /** Converting a valid civil date to its ordinal and back gives the same date. */
  lemma CivilRoundTrip(c: Civil)
    requires ValidCivil(c)
    ensures ToCivil(FromCivil(c)) == c
  {
    ToCivilRoundTrip(FromCivil(c));
    CivilInjective(ToCivil(FromCivil(c)), c);
  }

  /** Python's `date.weekday()`: Monday is 0, Sunday is 6; 0001-01-01 was a Monday. */
  function Weekday(n: Date): (w: int)
    ensures 0 <= w < 7
  {
    (n + 6) % 7
  }

  /** Consecutive ordinals fall on consecutive weekdays. */
  lemma WeekdayNext(n: Date)
    requires n < MAX_ORDINAL
    ensures Weekday(n + 1) == (Weekday(n) + 1) % 7
  {
    var w := (n + 6) % 7;
    var q := (n + 6) / 7;
    assert n + 7 == 7 * q + w + 1;
    if w == 6 {
      assert n + 7 == 7 * (q + 1);
    }
  }

  /** The day after the last of a month is the first of the next month. */
  lemma NextDayAfterMonthEnd(y: int, m: int)
    requires 1 <= y <= 9999 && 1 <= m <= 12 && !(y == 9999 && m == 12)
    ensures var ny, nm := (if m == 12 then y + 1 else y), (if m == 12 then 1 else m + 1);
            FromCivil(Civil(y, m, DaysInMonth(y, m))) + 1 == FromCivil(Civil(ny, nm, 1))
  {
    if m == 12 {
      DaysBeforeYearStep(y);
      EndOfYear(y);
    } else {
      DaysBeforeMonthStep(y, m);
    }
  }
}
