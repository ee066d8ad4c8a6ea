# Calendar, diet and strength log: a verified model

This project models the logic of a small Flask application (`app.py`). The
application keeps a calendar of timed items, a diet log and a strength-training log.
The model covers these parts:

- **Dates** (`dates.dfy`). A date is Python's proleptic Gregorian ordinal: 0001-01-01
  is day 1 and 9999-12-31 is day 3652059. The conversion from (year, month, day) to a
  day number uses the same day counts as Python's `datetime`. The conversion back is a
  search over years and months, proved to be its inverse. The weekday has Monday as 0.
- **Calendar helpers** (`calendar_helpers.dfy`). These are `month_range`, `month_nav`,
  `week_start` and `week_range_from_start`.
  - Where Python's date arithmetic raises an exception, the helper yields `None`.
    This happens for a year outside 1..9999, for a month outside 1..12, and for a
    step before 0001-01-01 or past 9999-12-31.
  - `month_nav` is modelled the way the code computes it: one day back from the
    first of the month, and four days past the 28th. A lemma proves that this gives
    the calendar's previous and next month.
- **Grouping and sums** (`grouping.dfy`, `aggregation.dfy`).
  - The `setdefault(...).append(...)` loops become methods with loop invariants.
    They build `items_by_date`, `diets_by_meal` and the nested `by_part` dictionary.
  - These methods are proved against left-recursive specification functions: the
    bucket of a key, and the set of keys that occur.
  - The `sum(...)` expressions are left folds over reals: the diet totals and the
    total load Σ weight × reps. A missing value counts as 0.
  - `strength_dates_between` is a filter over the stored sets.
- **Pages** (`views.dfy`). These are what `index`, `week_view` and `day_view` hand to
  their templates.
  - Each page is computed from the request arguments and the stored records. The
    records come in as sequences in the order of the page's query.
  - An uncaught exception is modelled as a server error, and `day_view`'s invalid
    path as a redirect.
- **Validation** (`validation.dfy`). These are the checks of `diet_add`,
  `strength_add`, `add` and `edit`, in the order the handlers apply them.
  - Python's `str.strip` is modelled with its whitespace set.
  - The exception the handler catches is modelled as a rejection.
- **Catalog** (`records.dfy`). This is the exercise catalog `STRENGTH_CATEGORIES`,
  which maps each body part to its exercises. It is many-to-many: the dumbbell fly is
  listed under chest and under shoulders. The file also holds the meal and item type
  lists and the three record kinds.

`app.py` has three calendar item types: 工作 (work), 提醒 (reminder) and 活動 (event).

## Model

| member | source | states |
|---|---|---|
| Dates.CivilRoundTrip | app.py:75-77 | a valid (year, month, day) converted to an ordinal and back is unchanged |
| Dates.ToCivilRoundTrip | app.py:75-77 | every ordinal in Python's range is the ordinal of one valid (year, month, day) |
| Dates.CivilInjective | app.py:75-77 | two valid (year, month, day) with the same ordinal are equal |
| Dates.DaysInMonth | app.py:76 | a month has 28 to 31 days |
| Dates.Weekday | app.py:86 | `weekday()` lies in 0..6 |
| Dates.WeekdayNext | app.py:86 | the next day's weekday is one more, wrapping from Sunday to Monday |
| Dates.NextDayAfterMonthEnd | app.py:81-82 | the day after a month's last day is the 1st of the next month, across year ends |
| CalendarHelpers.MonthRange | app.py:74-77 | `month_range` is defined exactly for years 1..9999 and months 1..12 |
| CalendarHelpers.MonthRangeSpec | app.py:74-77 | the range runs from day 1 to the month's last day; its length is the Gregorian month length, 29 for a leap February; first <= last |
| CalendarHelpers.MonthRangeIsMonth | app.py:74-77 | a date lies in the range exactly when its civil year and month are the requested ones |
| CalendarHelpers.MonthBefore | app.py:81 | one day back from the first of the month lands in the previous calendar month, and fails only at 0001-01 |
| CalendarHelpers.MonthAfter | app.py:82 | four days past the 28th lands in the next calendar month, and fails only at 9999-12 |
| CalendarHelpers.ProbeOverflows | app.py:82 | four days past the 28th leaves Python's range only in December 9999 |
| CalendarHelpers.FirstOfMonthIsDayOne | app.py:81 | the day before the first of a month is out of range only for January of year 1 |
| CalendarHelpers.DayBeforeFirst | app.py:81 | the day before the first of a month lies in the previous month |
| CalendarHelpers.FourDaysPast28th | app.py:82 | four days past the 28th lies in the next month |
| CalendarHelpers.MonthNav | app.py:79-83 | `month_nav` succeeds exactly for valid months other than 0001-01 and 9999-12; the previous month is (y, m-1) or (y-1, 12), the next is (y, m+1) or (y+1, 1) |
| CalendarHelpers.MonthNavRoundTrip | app.py:79-83 | the next of the previous month, and the previous of the next month, is the month itself |
| CalendarHelpers.MonthNavAdjacent | app.py:74-83 | the previous month's range ends the day before this month's range starts, and the next month's range starts the day after it ends |
| CalendarHelpers.WeekStart | app.py:85-86 | `week_start(d)` is a Monday r with r <= d < r + 7 |
| CalendarHelpers.WeekStartUnique | app.py:85-86 | any Monday in that window is the week start |
| CalendarHelpers.WeekStartIdempotent | app.py:85-86 | `week_start(week_start(d)) == week_start(d)` |
| CalendarHelpers.WeekRange | app.py:88-89 | seven dates, element i is monday + i, the last is monday + 6; it fails exactly when the last is past 9999-12-31 |
| CalendarHelpers.WeekRangeIsWeek | app.py:88-89 | from a Monday, the seven dates have weekdays 0..6 and are exactly the dates whose week starts on that Monday |
| Grouping.GroupBy | app.py:117-119 | the `setdefault`/`append` loop builds one entry per key that occurs, holding the records with that key in input order |
| Grouping.GroupedIsGrouping | app.py:207-209 | the dictionary the loop has built after any prefix holds each occurring key's bucket, and no other key |
| Grouping.GroupingSnoc | app.py:208-209 | one loop turn turns a grouping of the records seen so far into a grouping of those records plus the new one |
| Grouping.GroupingOfNothing | app.py:117-119 | no records give an empty dictionary |
| Grouping.BucketNonEmpty | app.py:161-163 | a key has a non-empty bucket exactly when some record carries it |
| Grouping.BucketCount | app.py:207-209 | every record in a bucket has the bucket's key; a record occurs in the bucket of its own key as often as in the input, and in no other bucket |
| Grouping.BucketKeepsOrder | app.py:207-209 | two records with the same key keep their input order in their bucket |
| Grouping.BucketConcat | app.py:207-209 | the bucket of a concatenation is the concatenation of the buckets |
| Grouping.BucketsPartition | app.py:207-209 | the buckets of distinct keys that cover every record, concatenated, are a permutation of the input: nothing lost, nothing duplicated, same count |
| Grouping.SumOverBuckets | app.py:201-209 | summing a field bucket by bucket gives the sum over all records |
| Grouping.SumByConcat | app.py:202-205 | a sum over a concatenation is the sum of the two sums |
| Aggregation.DietTotalsOfNothing | app.py:201-206 | no diet entries give all-zero totals |
| Aggregation.DietTotalsAppend | app.py:201-206 | `totals_diet` (`Aggregation.DietTotals`) grows by exactly an appended entry's four values, a missing value as 0 |
| Aggregation.DietTotalsConcat | app.py:201-206 | the totals of two lists of entries added together are the totals of their concatenation |
| Aggregation.DietTotalsByMeal | app.py:201-209 | each macro summed meal by meal equals the day's total of that macro |
| Aggregation.TotalLoadOfNothing | app.py:219 | no sets give a load of 0 |
| Aggregation.TotalLoadAppend | app.py:219 | `total_weight` (`Aggregation.TotalLoad`) grows by an appended set's weight × reps, a missing weight or rep count as 0 |
| Aggregation.TotalLoadExample | app.py:219 | 60 kg × 10 plus 40 kg × 5 is a load of 800 |
| Aggregation.TotalLoadByPart | app.py:219-225 | the load summed body part by body part equals the day's load |
| Aggregation.GroupByPartAndExercise | app.py:222-225 | the nested loop builds one entry per body part that occurs; within it, one entry per exercise of that part's sets, holding those sets in input order |
| Aggregation.NestedGroupedPart | app.py:222-225 | after any prefix, a body part's entry in the loop's dictionary is the exercise grouping of that part's sets |
| Aggregation.NestedGroupedIsNestedGrouping | app.py:222-225 | the dictionary the nested loop builds is the nested grouping of the sets |
| Aggregation.NestedGroupingPlacesEachSet | app.py:222-225 | every set sits under its own body part and its own exercise |
| Aggregation.NestedGroupingEmpty | app.py:222-225 | the nested dictionary is empty exactly when the day has no sets |
| Aggregation.ItemsBetweenMembers | app.py:113 | the `BETWEEN` filter keeps exactly the items dated inside the range, and never more items than it is given |
| Aggregation.ItemsBetweenByDate | app.py:112-119 | after the date filter, a date's bucket is its bucket among all items inside the range, and empty outside it |
| Aggregation.ItemsBetweenKeys | app.py:112-119 | a date occurs among the filtered items exactly when it is in the range and occurs among all items |
| Aggregation.StrengthDatesBetween | app.py:91-99 | every returned date lies in the range |
| Aggregation.StrengthDatesAreTrainingDays | app.py:91-99 | a date is returned exactly when it lies in the range and has at least one set |
| Views.RequestedMonth | app.py:104-108 | a converted argument is used as given and a missing one defaults to today's year or month; if either argument fails to convert, both become today's |
| Views.MonthView | app.py:102-138 | the page renders exactly when `month_nav` succeeds and fails otherwise; it holds the range, the date grouping of the range's items (a date is a key exactly when it is in the month and has items, and its entry is all its items in order), the navigation and exactly the month's training days |
| Views.RequestedWeekStart | app.py:143-150 | a parsed `start` is used as given; otherwise the week starts on the Monday of today's week |
| Views.WeekView | app.py:141-180 | the page renders exactly when the week and both neighbouring starts are in range; it holds the seven days, the date grouping of the week's items, the week's training days and the starts seven days before and after |
| Views.WeekNavigation | app.py:168-169 | the neighbouring starts have the same weekday; from a Monday they are the previous and the next week's Mondays |
| Views.DayView | app.py:183-236 | an unparsable path redirects; the page renders exactly when both neighbouring days are in range; it holds the day's items, the day's diet entries grouped by meal, their totals, the day's sets grouped by part and exercise, their load and the neighbouring days |
| Views.TrainingMarkMatchesDayPage | app.py:127-128 | the month page marks a day as a training day exactly when that day's page groups at least one set |
| Validation.StripStart | app.py:244 | `lstrip` removes only leading whitespace, up to the first non-whitespace character |
| Validation.StripEnd | app.py:244 | `rstrip` removes only trailing whitespace, back to the last non-whitespace character |
| Validation.Strip | app.py:244 | the stripped text is no longer than the input and has no whitespace at either end |
| Validation.StripEmpty | app.py:253 | a field strips to nothing exactly when it is all whitespace |
| Validation.StripIdempotent | app.py:244 | stripping twice is stripping once |
| Validation.DietAddAsWritten | app.py:241-264 | a submission whose date does not parse ends in an uncaught exception, and no other does |
| Validation.DietAddAsWrittenCrashes | app.py:242 | a concrete form without a valid date ends in an uncaught exception |
| Validation.DietAdd | app.py:241-264 | never an uncaught exception; rejected as malformed iff a field is missing or fails to convert; rejected for the meal iff it is not a meal type; rejected for the name iff it strips to nothing; stored iff all checks pass; the stored entry is the submitted date and meal, the stripped food name and the submitted macros (blank as 0), so it has a known meal and a trimmed non-empty name |
| Validation.StrengthVerdict | app.py:286-292 | unsupported iff the body part is not a catalog key or no part lists the exercise; advisory iff it is valid but the chosen part does not list it; silently accepted iff the chosen part lists it |
| Validation.StrengthVerdictExamples | app.py:286-292 | the dumbbell fly is accepted silently under chest and under shoulders and with a notice under back; squats under chest get the notice; unknown exercises and parts are refused |
| Validation.StrengthAddAsWritten | app.py:278-301 | a submission whose date does not parse ends in an uncaught exception, and no other does |
| Validation.StrengthAddAsWrittenCrashes | app.py:279 | a concrete form without a valid date ends in an uncaught exception |
| Validation.StrengthAdd | app.py:278-301 | never an uncaught exception; malformed iff a field is missing or fails to convert; unsupported iff the catalog check refuses; stored iff the form converts and the catalog check accepts; a stored set carries the submitted fields (blank as 0), a catalog part and a listed exercise, and has a notice iff its part does not list the exercise |
| Validation.AddItem | app.py:316-345 | malformed iff a field is missing, or the title and type pass but a date or time fails to convert; rejected for the title iff it strips to nothing; for the type iff it is not an item type; for the times iff the end is not after the start; stored iff all checks pass; the stored item is the stripped title, the submitted type, date and times and the stripped content, so it has a trimmed non-empty title, a known type and start before end |
| Validation.EditItem | app.py:354-385 | editing an item decides and stores exactly as adding does, whatever the item held before, and every item it stores is valid |
| Records.BodyPartsAreCatalogKeys | app.py:19-27 | the seven body parts are the catalog's keys, each listed once |
| Records.FlattenMember | app.py:286 | an element is in the concatenation of lists exactly when some list holds it |
| Records.AllExercisesMember | app.py:286 | an exercise is in `sum(STRENGTH_CATEGORIES.values(), [])` exactly when some body part lists it |
| Records.CatalogIsManyToMany | app.py:20-26 | the dumbbell fly is listed under both chest and shoulders |

## Left out

- Flask routing, `flash` messages, redirect targets and template rendering are left out. A page is modelled as the values handed to its template. A handler's outcome is modelled as stored, rejected or an uncaught exception.
- SQLAlchemy persistence is left out: sessions, commits and commit failures, ids, `created_at` and the delete routes. The rows a query returns are input sequences in the query's order. Its date filter is modelled; its `ORDER BY` is assumed.
- `datetime.strptime`, `strftime`, `int()` and `float()` parsing is not modelled. A parsed field is given as converted, missing or unconvertible.
- `calendar.Calendar.monthdatescalendar` (the month page's week grid) is left out, because it is library code.
- `date.today()` is left out. Today's date is a parameter of the pages that default to it.
- Floating point is left out. Quantities are reals, so rounding is not modelled.
- Column length limits are left out.
- The browser script under `static/` is left out.
- The order of the edit handler is not modelled: it writes the form's values into the tracked record before the end-after-start check. A rejected edit is never committed. `Validation.EditItem` builds the updated value and then checks it.
- Dates are limited to Python's range 0001-01-01 .. 9999-12-31. Where Python raises `OverflowError` or `ValueError` at those edges, the model yields `None` or a server error.
- Dictionary key order is not modelled. Python dictionaries remember the order in which keys were first inserted, and the templates receive `items_by_date`, `diets_by_meal` and `strength_by_part` (app.py:133, 232-233). A Dafny `map` has no order, so `Grouping.GroupBy` and `Aggregation.GroupByPartAndExercise` do not state the key order. They do state each bucket's order.
- Nutrition goals, a class timetable, best sets per exercise and comparisons with earlier sessions are not part of this model. `app.py` has no such code.

## Findings

| source | as written | input that shows it | evidently intended | confidence | as-written member | corrected member |
|---|---|---|---|---|---|---|
| app.py:241-264 | when `strptime` rejects the date, the `except` branch falls through to a redirect that reads `d`, which was never assigned, so the handler raises `UnboundLocalError` (HTTP 500) | a diet form whose `date` field is absent or not `YYYY-MM-DD` | report the failure and redirect like any other malformed field | high, not executed | Validation.DietAddAsWrittenCrashes | Validation.DietAdd |
| app.py:278-301 | the same unassigned `d` in `strength_add`'s final redirect after a date that fails to parse | a strength form whose `date` field is absent or not `YYYY-MM-DD` | report the failure and redirect like any other malformed field | high, not executed | Validation.StrengthAddAsWrittenCrashes | Validation.StrengthAdd |
