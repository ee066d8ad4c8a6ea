/** The three pages of the application: the month grid (`index`), the week
    (`week_view`) and the day (`day_view`), each as what it computes from the request
    and the stored records. The stored records come in as sequences, in the order the
    page's query sorts them; the date filters of the queries are part of the model. */
module Views {
  import opened Wrappers
  import opened Dates
  import opened Records
  import opened Grouping
  import opened Aggregation
  import opened CalendarHelpers

  /** How a request ends: a rendered page, a redirect, or an exception nothing catches
      (an HTTP 500). */
  datatype Response<T> = Render(page: T) | Redirect | ServerError

  /** Date `d` falls in month `month` of year `year`. */
  predicate InMonth(d: Date, year: int, month: int)
  {
    ToCivil(d).year == year && ToCivil(d).month == month
  }

  /** The month `index` shows: each query argument defaults to today's, and when either
      fails to convert, both are replaced by today's. */
  function RequestedMonth(yearArg: Field<int>, monthArg: Field<int>, today: YearMonth): (r: YearMonth)
    ensures yearArg.Unparsable? || monthArg.Unparsable? ==> r == today
    ensures yearArg.Parsed? && monthArg.Parsed? ==> r == YearMonth(yearArg.value, monthArg.value)
    ensures !monthArg.Unparsable? && yearArg.Missing? ==> r.year == today.year
    ensures !yearArg.Unparsable? && monthArg.Missing? ==> r.month == today.month
    ensures !monthArg.Unparsable? && yearArg.Parsed? ==> r.year == yearArg.value
    ensures !yearArg.Unparsable? && monthArg.Parsed? ==> r.month == monthArg.value
  {
    if yearArg.Unparsable? || monthArg.Unparsable? then today
    else
      YearMonth(if yearArg.Parsed? then yearArg.value else today.year,
                if monthArg.Parsed? then monthArg.value else today.month)
  }

  /** What the month template receives (the week grid of `monthdatescalendar` aside). */
  datatype MonthPage = MonthPage(
    first: Date,
    last: Date,
    itemsByDate: map<Date, seq<CalendarItem>>,
    prev: YearMonth,
    next: YearMonth,
    strengthDates: set<Date>)

  /** `index` for a year and month: the month's items grouped by date, the navigation
      links and the days with strength training. A month `date()` rejects, and the
      first and last representable months, whose neighbour `month_nav` cannot build,
      end in an exception. */
  method MonthView(year: int, month: int, items: seq<CalendarItem>, sets: seq<StrengthSet>) returns (r: Response<MonthPage>)
    ensures r.Render? <==> MonthNav(year, month).Some?
    ensures !r.Render? ==> r.ServerError?
    ensures r.Render? ==>
      && (r.page.first, r.page.last) == MonthRange(year, month).value
      && IsGrouping<Date, CalendarItem>(r.page.itemsByDate, ItemsBetween(items, r.page.first, r.page.last), ItemDate)
      && (r.page.prev, r.page.next) == MonthNav(year, month).value
      && r.page.strengthDates == StrengthDatesBetween(r.page.first, r.page.last, sets)
    ensures r.Render? ==> forall d: Date ::
      d in r.page.itemsByDate <==> InMonth(d, year, month) && Bucket<Date, CalendarItem>(items, ItemDate, d) != []
    ensures r.Render? ==> forall d :: d in r.page.itemsByDate ==> r.page.itemsByDate[d] == Bucket<Date, CalendarItem>(items, ItemDate, d)
    ensures r.Render? ==> forall d: Date ::
      d in r.page.strengthDates <==> InMonth(d, year, month) && Bucket<Date, StrengthSet>(sets, SetDate, d) != []
  {
    var range := MonthRange(year, month);
    if range.None? {
      return ServerError;
    }
    var (first, last) := range.value;
    var inRange := ItemsBetween(items, first, last);
    var byDate := GroupBy<Date, CalendarItem>(inRange, ItemDate);
    var nav := MonthNav(year, month);
    if nav.None? {
      return ServerError;
    }
    var strengthDates := StrengthDatesBetween(first, last, sets);
    r := Render(MonthPage(first, last, byDate, nav.value.0, nav.value.1, strengthDates));
    forall d: Date
      ensures d in byDate <==> InMonth(d, year, month) && Bucket<Date, CalendarItem>(items, ItemDate, d) != []
      ensures d in byDate ==> byDate[d] == Bucket<Date, CalendarItem>(items, ItemDate, d)
      ensures d in strengthDates <==> InMonth(d, year, month) && Bucket<Date, StrengthSet>(sets, SetDate, d) != []
    {
      MonthRangeIsMonth(year, month, d);
      ItemsBetweenKeys(items, first, last, d);
      BucketNonEmpty<Date, CalendarItem>(items, ItemDate, d);
      ItemsBetweenByDate(items, first, last, d);
      StrengthDatesAreTrainingDays(first, last, sets, d);
    }
  }

  /** The week `week_view` shows: the `start` argument as given, or, when it is absent,
      empty or not a date, the Monday of today's week. A given start is not moved back
      to its Monday. */
  function RequestedWeekStart(startArg: Field<Date>, today: Date): (r: Date)
    ensures startArg.Parsed? ==> r == startArg.value
    ensures !startArg.Parsed? ==> Weekday(r) == 0 && r <= today < r + 7
  {
    if startArg.Parsed? then startArg.value else WeekStart(today)
  }

  /** What the week template receives. */
  datatype WeekPage = WeekPage(
    days: seq<Date>,
    itemsByDate: map<Date, seq<CalendarItem>>,
    strengthDates: set<Date>,
    prevStart: Date,
    nextStart: Date)

  /** `week_view` from its first day: the seven days, their items grouped by date, the
      days with strength training and the neighbouring weeks' first days. A week whose
      days or neighbours leave the representable range ends in an exception. */
  method WeekView(monday: Date, items: seq<CalendarItem>, sets: seq<StrengthSet>) returns (r: Response<WeekPage>)
    ensures r.Render? <==> 8 <= monday <= MAX_ORDINAL - 7
    ensures !r.Render? ==> r.ServerError?
    ensures r.Render? ==>
      && r.page.days == WeekRange(monday).value
      && IsGrouping<Date, CalendarItem>(r.page.itemsByDate, ItemsBetween(items, monday, monday + 6), ItemDate)
      && r.page.strengthDates == StrengthDatesBetween(monday, monday + 6, sets)
      && r.page.prevStart == monday - 7
      && r.page.nextStart == monday + 7
    ensures r.Render? ==> forall d: Date ::
      d in r.page.itemsByDate <==> monday <= d <= monday + 6 && Bucket<Date, CalendarItem>(items, ItemDate, d) != []
    ensures r.Render? ==> forall d :: d in r.page.itemsByDate ==> r.page.itemsByDate[d] == Bucket<Date, CalendarItem>(items, ItemDate, d)
    ensures r.Render? ==> forall d: Date ::
      d in r.page.strengthDates <==> monday <= d <= monday + 6 && Bucket<Date, StrengthSet>(sets, SetDate, d) != []
  {
    var week := WeekRange(monday);
    if week.None? {
      return ServerError;
    }
    var days := week.value;
    var (start, end) := (days[0], days[6]);
    var inRange := ItemsBetween(items, start, end);
    var byDate := GroupBy<Date, CalendarItem>(inRange, ItemDate);
    var strengthDates := StrengthDatesBetween(start, end, sets);
    if monday - 7 < 1 || monday + 7 > MAX_ORDINAL {
      return ServerError;
    }
    r := Render(WeekPage(days, byDate, strengthDates, monday - 7, monday + 7));
    forall d: Date
      ensures d in byDate <==> start <= d <= end && Bucket<Date, CalendarItem>(items, ItemDate, d) != []
      ensures d in byDate ==> byDate[d] == Bucket<Date, CalendarItem>(items, ItemDate, d)
      ensures d in strengthDates <==> start <= d <= end && Bucket<Date, StrengthSet>(sets, SetDate, d) != []
    {
      ItemsBetweenKeys(items, start, end, d);
      BucketNonEmpty<Date, CalendarItem>(items, ItemDate, d);
      ItemsBetweenByDate(items, start, end, d);
      StrengthDatesAreTrainingDays(start, end, sets, d);
    }
  }

  /** The neighbouring weeks start on the same weekday, seven days apart, so from a
      Monday the links lead to the Mondays before and after. */
  lemma WeekNavigation(monday: Date)
    requires 8 <= monday <= MAX_ORDINAL - 7
    ensures Weekday(monday - 7) == Weekday(monday) && Weekday(monday + 7) == Weekday(monday)
    ensures Weekday(monday) == 0 ==> WeekStart(monday - 1) == monday - 7 && WeekStart(monday + 7) == monday + 7
  {
    if Weekday(monday) == 0 {
      WeekStartUnique(monday - 1, monday - 7);
      WeekStartUnique(monday + 7, monday + 7);
    }
  }

  /** What the day template receives. */
  datatype DayPage = DayPage(
    date: Date,
    items: seq<CalendarItem>,
    dietsByMeal: map<string, seq<DietEntry>>,
    totals: Macros,
    byPart: map<string, map<string, seq<StrengthSet>>>,
    totalLoad: real,
    prevDay: Date,
    nextDay: Date)

  /** `day_view`: the day's items, diet entries grouped by meal with their totals, and
      strength sets grouped by body part and exercise with their load. A path that is
      not a date redirects to the month page; the first and last representable days,
      whose neighbours cannot be built, end in an exception. */
  method DayView(dateArg: Option<Date>, items: seq<CalendarItem>, diets: seq<DietEntry>, sets: seq<StrengthSet>)
    returns (r: Response<DayPage>)
    ensures dateArg.None? <==> r.Redirect?
    ensures dateArg.Some? ==> (r.Render? <==> 1 < dateArg.value < MAX_ORDINAL)
    ensures r.Render? ==> r.page.date == dateArg.value
    ensures r.Render? ==> r.page.prevDay == dateArg.value - 1 && r.page.nextDay == dateArg.value + 1
    ensures r.Render? ==> r.page.items == Bucket<Date, CalendarItem>(items, ItemDate, dateArg.value)
    ensures r.Render? ==> IsGrouping(r.page.dietsByMeal, Bucket<Date, DietEntry>(diets, DietDate, dateArg.value), MealOf)
    ensures r.Render? ==> r.page.totals == DietTotals(Bucket<Date, DietEntry>(diets, DietDate, dateArg.value))
    ensures r.Render? ==> IsNestedGrouping(r.page.byPart, Bucket<Date, StrengthSet>(sets, SetDate, dateArg.value))
    ensures r.Render? ==> r.page.totalLoad == TotalLoad(Bucket<Date, StrengthSet>(sets, SetDate, dateArg.value))
  {
    if dateArg.None? {
      return Redirect;
    }
    var d := dateArg.value;
    var dayItems := Bucket<Date, CalendarItem>(items, ItemDate, d);
    var dayDiets := Bucket<Date, DietEntry>(diets, DietDate, d);
    var totals := DietTotals(dayDiets);
    var byMeal := GroupBy(dayDiets, MealOf);
    var daySets := Bucket<Date, StrengthSet>(sets, SetDate, d);
    var load := TotalLoad(daySets);
    var byPart := GroupByPartAndExercise(daySets);
    if d - 1 < 1 || d + 1 > MAX_ORDINAL {
      return ServerError;
    }
    r := Render(DayPage(d, dayItems, byMeal, totals, byPart, load, d - 1, d + 1));
  }

  /** The month grid marks a day as a training day exactly when that day's page groups
      at least one strength set. */
  lemma TrainingMarkMatchesDayPage(year: int, month: int, sets: seq<StrengthSet>, d: Date,
                                   byPart: map<string, map<string, seq<StrengthSet>>>)
    requires MonthRange(year, month).Some?
    requires IsNestedGrouping(byPart, Bucket<Date, StrengthSet>(sets, SetDate, d))
    ensures var (first, last) := MonthRange(year, month).value;
            d in StrengthDatesBetween(first, last, sets) <==> InMonth(d, year, month) && byPart != map[]
  {
    var (first, last) := MonthRange(year, month).value;
    MonthRangeIsMonth(year, month, d);
    StrengthDatesAreTrainingDays(first, last, sets, d);
    NestedGroupingEmpty(byPart, Bucket<Date, StrengthSet>(sets, SetDate, d));
  }
}
