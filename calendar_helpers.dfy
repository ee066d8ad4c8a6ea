/** The calendar helpers of app.py (month_range, month_nav, week_start,
    week_range_from_start). Where Python's `date` arithmetic raises (a month outside
    1..12, a result before 0001-01-01 or after 9999-12-31) the helper yields None. */
module CalendarHelpers {
  import opened Wrappers
  import opened Dates

  datatype YearMonth = YearMonth(year: int, month: int)

  /** The month before (y, m), wrapping to December of the previous year. */
  function PrevMonth(y: int, m: int): YearMonth {
    if m == 1 then YearMonth(y - 1, 12) else YearMonth(y, m - 1)
  }

  /** The month after (y, m), wrapping to January of the next year. */
  function NextMonth(y: int, m: int): YearMonth {
    if m == 12 then YearMonth(y + 1, 1) else YearMonth(y, m + 1)
  }

  /** `month_range(year, month)`: the first and the last day of the month, defined
      exactly when `date(year, month, 1)` is. */
  function MonthRange(year: int, month: int): (r: Option<(Date, Date)>)
    ensures r.Some? <==> 1 <= year <= 9999 && 1 <= month <= 12
  {
    if 1 <= year <= 9999 && 1 <= month <= 12 then
      Some((FromCivil(Civil(year, month, 1)), FromCivil(Civil(year, month, DaysInMonth(year, month)))))
    else
      None
  }

  /** The range starts on day 1 and ends on the month's last day, and holds as many
      days as the month has (29 for February of a leap year). */
  lemma MonthRangeSpec(year: int, month: int)
    requires 1 <= year <= 9999 && 1 <= month <= 12
    ensures var (first, last) := MonthRange(year, month).value;
            && ToCivil(first) == Civil(year, month, 1)
            && ToCivil(last) == Civil(year, month, DaysInMonth(year, month))
            && first <= last
            && last - first + 1
               == (if month == 2 then (if IsLeap(year) then 29 else 28)
                   else if month == 4 || month == 6 || month == 9 || month == 11 then 30
                   else 31)
  {
    CivilRoundTrip(Civil(year, month, 1));
    CivilRoundTrip(Civil(year, month, DaysInMonth(year, month)));
  }

  /** A date lies between the first and the last of a month exactly when its civil
      month is that month. */
  lemma WithinMonth(year: int, month: int, n: Date)
    requires 1 <= year <= 9999 && 1 <= month <= 12
    ensures FromCivil(Civil(year, month, 1)) <= n <= FromCivil(Civil(year, month, DaysInMonth(year, month)))
            <==> ToCivil(n).year == year && ToCivil(n).month == month
  {
    var first := FromCivil(Civil(year, month, 1));
    if first <= n <= FromCivil(Civil(year, month, DaysInMonth(year, month))) {
      var c := Civil(year, month, n - first + 1);
      assert FromCivil(c) == n;
      CivilRoundTrip(c);
    }
    var c := ToCivil(n);
    if c.year == year && c.month == month {
      assert n == FromCivil(c);
    }
  }

  /** A date lies in `month_range(year, month)` exactly when its civil month is
      (year, month): the range is the whole month and nothing else. */
  lemma MonthRangeIsMonth(year: int, month: int, n: Date)
    requires MonthRange(year, month).Some?
    ensures var (first, last) := MonthRange(year, month).value;
            first <= n <= last <==> ToCivil(n).year == year && ToCivil(n).month == month
  {
    WithinMonth(year, month, n);
  }

  /** The first of a month is day 1 only for January of year 1. */
  lemma FirstOfMonthIsDayOne(y: int, m: int)
    requires 1 <= y <= 9999 && 1 <= m <= 12
    ensures FromCivil(Civil(y, m, 1)) - 1 < 1 <==> y == 1 && m == 1
  {
    if y > 1 {
      DaysBeforeYearMono(1, y);
    }
    if m > 1 {
      DaysBeforeMonthMono(y, 1, m);
    }
  }

  /** Four days past the 28th leaves Python's date range only in December 9999. */
  lemma ProbeOverflows(y: int, m: int)
    requires 1 <= y <= 9999 && 1 <= m <= 12
    ensures FromCivil(Civil(y, m, 28)) + 4 > MAX_ORDINAL <==> y == 9999 && m == 12
  {
    if y == 9999 && m == 12 {
      DaysBeforeYearStep(9999);
    } else {
      var n := NextMonth(y, m);
      NextDayAfterMonthEnd(y, m);
      assert FromCivil(Civil(y, m, 28)) + 4 == FromCivil(Civil(n.year, n.month, 32 - DaysInMonth(y, m)));
    }
  }

  /** The day before January 1st is December 31st of the previous year. */
  lemma DayBeforeJanuary(y: int)
    requires 2 <= y <= 9999
    ensures FromCivil(Civil(y, 1, 1)) > 1
    ensures ToCivil(FromCivil(Civil(y, 1, 1)) - 1) == Civil(y - 1, 12, 31)
  {
    NextDayAfterMonthEnd(y - 1, 12);
    CivilRoundTrip(Civil(y - 1, 12, 31));
  }

  /** Within a year, the day before the first of a month is the last day of the month before. */
  lemma DayBeforeMonth(y: int, m: int)
    requires 1 <= y <= 9999 && 2 <= m <= 12
    ensures FromCivil(Civil(y, m, 1)) > 1
    ensures ToCivil(FromCivil(Civil(y, m, 1)) - 1) == Civil(y, m - 1, DaysInMonth(y, m - 1))
  {
    NextDayAfterMonthEnd(y, m - 1);
    CivilRoundTrip(Civil(y, m - 1, DaysInMonth(y, m - 1)));
  }

  /** The day before the first of a month lies in the previous month. */
  lemma DayBeforeFirst(y: int, m: int)
    requires 1 <= y <= 9999 && 1 <= m <= 12 && !(y == 1 && m == 1)
    ensures FromCivil(Civil(y, m, 1)) > 1
    ensures var c := ToCivil(FromCivil(Civil(y, m, 1)) - 1);
            YearMonth(c.year, c.month) == PrevMonth(y, m)
  {
    if m == 1 {
      DayBeforeJanuary(y);
    } else {
      DayBeforeMonth(y, m);
    }
  }

  /** December 28th plus four days is the ordinal of New Year's Day. */
  lemma DecemberProbe(y: int)
    requires 1 <= y < 9999
    ensures FromCivil(Civil(y, 12, 28)) + 4 == FromCivil(Civil(y + 1, 1, 1))
  {
    NextDayAfterMonthEnd(y, 12);
  }

  /** Four days past December 28th is January 1st to 4th of the next year. */
  lemma FourDaysPastDecember28th(y: int)
    requires 1 <= y < 9999
    ensures FromCivil(Civil(y, 12, 28)) + 4 <= MAX_ORDINAL
    ensures ToCivil(FromCivil(Civil(y, 12, 28)) + 4) == Civil(y + 1, 1, 1)
  {
    DecemberProbe(y);
    CivilRoundTrip(Civil(y + 1, 1, 1));
  }

  /** Within a year, four days past the 28th is day 1 to 4 of the next month. */
  lemma FourDaysPastMonth28th(y: int, m: int)
    requires 1 <= y <= 9999 && 1 <= m < 12
    ensures FromCivil(Civil(y, m, 28)) + 4 <= MAX_ORDINAL
    ensures ToCivil(FromCivil(Civil(y, m, 28)) + 4) == Civil(y, m + 1, 32 - DaysInMonth(y, m))
  {
    var target := Civil(y, m + 1, 32 - DaysInMonth(y, m));
    NextDayAfterMonthEnd(y, m);
    assert FromCivil(Civil(y, m, 28)) + 4 == FromCivil(target);
    CivilRoundTrip(target);
  }

  /** Four days past the 28th lies in the next month. */
  lemma FourDaysPast28th(y: int, m: int)
    requires 1 <= y <= 9999 && 1 <= m <= 12 && !(y == 9999 && m == 12)
    ensures FromCivil(Civil(y, m, 28)) + 4 <= MAX_ORDINAL
    ensures var c := ToCivil(FromCivil(Civil(y, m, 28)) + 4);
            YearMonth(c.year, c.month) == NextMonth(y, m)
  {
    if m == 12 {
      FourDaysPastDecember28th(y);
    } else {
      FourDaysPastMonth28th(y, m);
    }
  }

  /** Year and month of the day before the first of (y, m), as `month_nav` takes them;
      None where Python's date subtraction overflows. */
  function MonthBefore(y: int, m: int): (r: Option<YearMonth>)
    requires 1 <= y <= 9999 && 1 <= m <= 12
    ensures r == if y == 1 && m == 1 then None else Some(PrevMonth(y, m))
  {
    var first := FromCivil(Civil(y, m, 1));
    FirstOfMonthIsDayOne(y, m);
    if first - 1 < 1 then None
    else
      DayBeforeFirst(y, m);
      var before := ToCivil(first - 1);
      Some(YearMonth(before.year, before.month))
  }

  /** Year and month of four days past the 28th of (y, m), as `month_nav` takes them;
      None where Python's date addition overflows. */
  function MonthAfter(y: int, m: int): (r: Option<YearMonth>)
    requires 1 <= y <= 9999 && 1 <= m <= 12
    ensures r == if y == 9999 && m == 12 then None else Some(NextMonth(y, m))
  {
    var probe := FromCivil(Civil(y, m, 28));
    ProbeOverflows(y, m);
    if probe + 4 > MAX_ORDINAL then None
    else
      FourDaysPast28th(y, m);
      var after := ToCivil(probe + 4);
      Some(YearMonth(after.year, after.month))
  }

  /** `month_nav(year, month)`: the previous and the next month, computed as Python
      does (step back one day from the first; step four days past the 28th; keep only
      year and month). It fails for an invalid month and where a step leaves Python's
      date range, i.e. at 0001-01 and 9999-12; otherwise it wraps across years. */
  function MonthNav(year: int, month: int): (r: Option<(YearMonth, YearMonth)>)
    ensures r.Some? <==> && 1 <= year <= 9999 && 1 <= month <= 12
                         && !(year == 1 && month == 1) && !(year == 9999 && month == 12)
    ensures r.Some? ==> r.value.0 == (if month == 1 then YearMonth(year - 1, 12) else YearMonth(year, month - 1))
    ensures r.Some? ==> r.value.1 == (if month == 12 then YearMonth(year + 1, 1) else YearMonth(year, month + 1))
  {
    if !(1 <= year <= 9999 && 1 <= month <= 12) then None
    else match (MonthBefore(year, month), MonthAfter(year, month))
      case (Some(prev), Some(next)) => Some((prev, next))
      case _ => None
  }

  /** Stepping back then forward (or forward then back) returns to the same month,
      whenever the second step is itself defined. */
  lemma MonthNavRoundTrip(year: int, month: int)
    requires MonthNav(year, month).Some?
    ensures var (p, n) := MonthNav(year, month).value;
            && (MonthNav(p.year, p.month).Some? ==> MonthNav(p.year, p.month).value.1 == YearMonth(year, month))
            && (MonthNav(n.year, n.month).Some? ==> MonthNav(n.year, n.month).value.0 == YearMonth(year, month))
  {
    var (p, n) := MonthNav(year, month).value;
    assert p == PrevMonth(year, month) && n == NextMonth(year, month);
    if MonthNav(p.year, p.month).Some? {
      assert MonthNav(p.year, p.month).value.1 == NextMonth(p.year, p.month);
    }
    if MonthNav(n.year, n.month).Some? {
      assert MonthNav(n.year, n.month).value.0 == PrevMonth(n.year, n.month);
    }
  }

  /** The month before (y, m) ends the day before (y, m) starts. */
  lemma PrevMonthAdjacent(y: int, m: int)
    requires 1 <= y <= 9999 && 1 <= m <= 12 && !(y == 1 && m == 1)
    ensures var p := PrevMonth(y, m);
            MonthRange(p.year, p.month).Some?
            && MonthRange(p.year, p.month).value.1 + 1 == MonthRange(y, m).value.0
  {
    if m == 1 {
      NextDayAfterMonthEnd(y - 1, 12);
    } else {
      NextDayAfterMonthEnd(y, m - 1);
    }
  }

  /** The month after (y, m) starts the day after (y, m) ends. */
  lemma NextMonthAdjacent(y: int, m: int)
    requires 1 <= y <= 9999 && 1 <= m <= 12 && !(y == 9999 && m == 12)
    ensures var n := NextMonth(y, m);
            MonthRange(n.year, n.month).Some?
            && MonthRange(y, m).value.1 + 1 == MonthRange(n.year, n.month).value.0
  {
    NextDayAfterMonthEnd(y, m);
  }

  /** The previous month ends the day before this month starts, and the next month
      starts the day after this month ends: navigation and ranges tile the calendar. */
  lemma MonthNavAdjacent(year: int, month: int)
    requires MonthNav(year, month).Some?
    ensures var (p, n) := MonthNav(year, month).value;
            && MonthRange(p.year, p.month).Some? && MonthRange(n.year, n.month).Some?
            && MonthRange(p.year, p.month).value.1 + 1 == MonthRange(year, month).value.0
            && MonthRange(year, month).value.1 + 1 == MonthRange(n.year, n.month).value.0
  {
    PrevMonthAdjacent(year, month);
    NextMonthAdjacent(year, month);
  }

  /** `week_start(d)`: the Monday on or before `d`, fewer than seven days before it. */
  function WeekStart(d: Date): (r: Date)
    ensures Weekday(r) == 0
    ensures r <= d < r + 7
  {
    d - Weekday(d)
  }

  /** Any Monday on or before `d` and fewer than seven days before it is the week start. */
  lemma WeekStartUnique(d: Date, monday: Date)
    requires Weekday(monday) == 0 && monday <= d < monday + 7
    ensures WeekStart(d) == monday
  {
    var r := WeekStart(d);
    assert (r as int + 6) % 7 == 0 && (monday as int + 6) % 7 == 0;
    assert (monday - r) % 7 == 0;
  }

  /** `week_start` is idempotent. */
  lemma WeekStartIdempotent(d: Date)
    ensures WeekStart(WeekStart(d)) == WeekStart(d)
  {
    WeekStartUnique(WeekStart(d), WeekStart(d));
  }

  /** `week_range_from_start(monday)`: the seven consecutive dates from `monday` on;
      Python raises when the last of them is past 9999-12-31. */
  function WeekRange(monday: Date): (r: Option<seq<Date>>)
    ensures r.Some? <==> monday + 6 <= MAX_ORDINAL
    ensures r.Some? ==> |r.value| == 7 && r.value[0] == monday && r.value[6] == monday + 6
    ensures r.Some? ==> forall i :: 0 <= i < |r.value| ==> r.value[i] == monday + i
  {
    if monday + 6 > MAX_ORDINAL then None
    else Some(seq(7, (i: int) requires 0 <= i < 7 => (monday + i) as Date))
  }

  /** Started from a Monday, the seven dates are exactly the dates whose week starts
      on that Monday, Monday to Sunday in order. */
  lemma WeekRangeIsWeek(monday: Date)
    requires Weekday(monday) == 0 && WeekRange(monday).Some?
    ensures var days := WeekRange(monday).value;
            && (forall i :: 0 <= i < 7 ==> Weekday(days[i]) == i)
            && (forall x: Date :: x in days <==> WeekStart(x) == monday)
  {
    var days := WeekRange(monday).value;
    forall x: Date
      ensures x in days <==> WeekStart(x) == monday
    {
      if monday <= x < monday + 7 {
        WeekStartUnique(x, monday);
        assert days[x - monday] == x;
      }
    }
  }
}
