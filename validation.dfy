/** The checks the three "add" handlers and the "edit" handler apply to a submitted
    form before they store anything, in the order the handlers apply them. */
module Validation {
  import opened Wrappers
  import opened Dates
  import opened Records

  /** Python's `str.isspace` for one character: the ASCII controls TAB to CR, the
      separators U+001C to U+001F, SPACE, NEL, NO-BREAK SPACE, and the Unicode space
      separators, line and paragraph separators. */
  predicate IsSpace(c: char)
  {
    || '\U{9}' <= c <= '\U{d}'
    || '\U{1c}' <= c <= '\U{20}'
    || c == '\U{85}' || c == '\U{a0}' || c == '\U{1680}'
    || '\U{2000}' <= c <= '\U{200a}'
    || c == '\U{2028}' || c == '\U{2029}' || c == '\U{202f}' || c == '\U{205f}' || c == '\U{3000}'
  }

  /** `s.lstrip()`: the suffix of `s` left after its leading whitespace. */
  function StripStart(s: string): (r: string)
    ensures |r| <= |s| && r == s[|s| - |r|..]
    ensures forall k :: 0 <= k < |s| - |r| ==> IsSpace(s[k])
    ensures r != [] ==> !IsSpace(r[0])
  {
    if s != [] && IsSpace(s[0]) then StripStart(s[1..]) else s
  }

  /** `s.rstrip()`: the prefix of `s` left before its trailing whitespace. */
  function StripEnd(s: string): (r: string)
    ensures |r| <= |s| && r == s[..|r|]
    ensures forall k :: |r| <= k < |s| ==> IsSpace(s[k])
    ensures r != [] ==> !IsSpace(r[|r| - 1])
  {
    if s != [] && IsSpace(s[|s| - 1]) then StripEnd(s[..|s| - 1]) else s
  }

  /** `s.strip()`. */
  function Strip(s: string): (r: string)
    ensures |r| <= |s|
    ensures r != [] ==> !IsSpace(r[0]) && !IsSpace(r[|r| - 1])
  {
    StripEnd(StripStart(s))
  }

  /** Non-empty, with no whitespace at either end: what `strip` leaves of a field that
      is not all whitespace. */
  predicate Trimmed(s: string)
  {
    s != [] && !IsSpace(s[0]) && !IsSpace(s[|s| - 1])
  }

  /** A field strips to nothing exactly when it is all whitespace. */
  lemma StripEmpty(s: string)
    ensures Strip(s) == [] <==> forall k :: 0 <= k < |s| ==> IsSpace(s[k])
  {
  }

  /** Stripping twice is stripping once. */
  lemma StripIdempotent(s: string)
    ensures Strip(Strip(s)) == Strip(s)
  {
    var r := Strip(s);
    if r != [] {
      assert StripStart(r) == r;
      assert StripEnd(r) == r;
    }
  }

  /** Why a submission is turned away. `MalformedInput` is an exception inside the
      handler's `try` block (a missing form field, a failed conversion), which the
      handler reports as a failure. */
  datatype Reason =
    | MalformedInput
    | UnsupportedMeal
    | EmptyFoodName
    | UnsupportedExercise
    | EmptyTitle
    | UnsupportedItemType
    | EndNotAfterStart

  /** How a submission ends: stored (the strength handler may add an advisory notice),
      turned away with a message, or failing with an exception no handler catches. */
  datatype Submission<T> = Stored(record: T, advisory: bool) | Rejected(reason: Reason) | Crashed

  /** The conversion of a field did not fail. */
  predicate Converts<T>(f: Field<T>) { !f.Unparsable? }

  /** `float(request.form.get(name, 0) or 0)` once it has converted. */
  function RealOr0(f: Field<real>): real { if f.Parsed? then f.value else 0.0 }

  /** `int(request.form.get(name, 0) or 0)` once it has converted. */
  function IntOr0(f: Field<int>): int { if f.Parsed? then f.value else 0 }

  // ----- diet entries -----

  /** The `diet_add` form: the date as `strptime` leaves it (None when the field is
      absent or not a date), the two required text fields (None when absent) and the
      four optional numbers. */
  datatype DietForm = DietForm(
    date: Option<Date>,
    mealType: Option<string>,
    foodName: Option<string>,
    kcal: Field<real>,
    proteinG: Field<real>,
    fatG: Field<real>,
    carbG: Field<real>)

  /** Every field of the form is present and converts. */
  predicate DietFormConverts(f: DietForm)
  {
    && f.date.Some? && f.mealType.Some? && f.foodName.Some?
    && Converts(f.kcal) && Converts(f.proteinG) && Converts(f.fatG) && Converts(f.carbG)
  }

  /** What every diet entry the handler stores satisfies. */
  predicate ValidDietEntry(e: DietEntry)
  {
    && e.mealType in MEAL_TYPES
    && Trimmed(e.foodName)
    && e.kcal.Some? && e.proteinG.Some? && e.fatG.Some? && e.carbG.Some?
  }

  /** `diet_add` as written: when the date does not parse, the exception handler's
      redirect reads the date variable, which was never assigned. */
  function DietAddAsWritten(f: DietForm): (r: Submission<DietEntry>)
    ensures r.Crashed? <==> f.date.None?
  {
    if f.date.None? then Crashed
    else if !DietFormConverts(f) then Rejected(MalformedInput)
    else if f.mealType.value !in MEAL_TYPES then Rejected(UnsupportedMeal)
    else if Strip(f.foodName.value) == [] then Rejected(EmptyFoodName)
    else
      Stored(DietEntry(f.date.value, f.mealType.value, Strip(f.foodName.value),
                       Some(RealOr0(f.kcal)), Some(RealOr0(f.proteinG)),
                       Some(RealOr0(f.fatG)), Some(RealOr0(f.carbG))), false)
  }

  /** A submission with an unparsable date ends in an unhandled exception. */
  lemma DietAddAsWrittenCrashes()
    ensures DietAddAsWritten(DietForm(None, Some("早餐"), Some("燕麥"), Missing, Missing, Missing, Missing)).Crashed?
  {
  }

  /** `diet_add` with the unparsable date reported like any other malformed field. */
  function DietAdd(f: DietForm): (r: Submission<DietEntry>)
    ensures !r.Crashed?
    ensures r == Rejected(MalformedInput) <==> !DietFormConverts(f)
    ensures r == Rejected(UnsupportedMeal) <==> DietFormConverts(f) && f.mealType.value !in MEAL_TYPES
    ensures r == Rejected(EmptyFoodName)
        <==> DietFormConverts(f) && f.mealType.value in MEAL_TYPES && Strip(f.foodName.value) == []
    ensures r.Stored? <==> DietFormConverts(f) && f.mealType.value in MEAL_TYPES && Strip(f.foodName.value) != []
    ensures r.Stored? ==> ValidDietEntry(r.record) && !r.advisory
    ensures r.Stored? ==>
      r.record == DietEntry(f.date.value, f.mealType.value, Strip(f.foodName.value),
                            Some(RealOr0(f.kcal)), Some(RealOr0(f.proteinG)),
                            Some(RealOr0(f.fatG)), Some(RealOr0(f.carbG)))
  {
    if f.date.None? then Rejected(MalformedInput) else DietAddAsWritten(f)
  }

  // ----- strength sets -----

  /** Some body part of the catalog lists the exercise. */
  ghost predicate ListedSomewhere(exercise: string)
  {
    exists p :: p in STRENGTH_CATEGORIES && exercise in STRENGTH_CATEGORIES[p]
  }

  /** The three outcomes of the strength check. */
  datatype Verdict = Unsupported | AcceptedWithAdvisory | Accepted

  /** The catalog check of `strength_add`: the body part must be a catalog key and the
      exercise must appear in the flattened catalog; an exercise listed under other
      parts only is still accepted, with an advisory notice. */
  function StrengthVerdict(bodyPart: string, exercise: string): (v: Verdict)
    ensures v == Unsupported <==> bodyPart !in STRENGTH_CATEGORIES || !ListedSomewhere(exercise)
    ensures v == AcceptedWithAdvisory
        <==> bodyPart in STRENGTH_CATEGORIES && ListedSomewhere(exercise) && exercise !in STRENGTH_CATEGORIES[bodyPart]
    ensures v == Accepted <==> bodyPart in STRENGTH_CATEGORIES && exercise in STRENGTH_CATEGORIES[bodyPart]
  {
    AllExercisesMember(exercise);
    if !(bodyPart in STRENGTH_CATEGORIES && exercise in AllExercises()) then Unsupported
    else if exercise !in STRENGTH_CATEGORIES[bodyPart] then AcceptedWithAdvisory
    else Accepted
  }

  /** The dumbbell fly is accepted silently under chest and under shoulders, with the
      notice under back; squats under chest get the notice; running is refused. */
  lemma StrengthVerdictExamples()
    ensures StrengthVerdict("胸部", "啞鈴飛鳥") == Accepted
    ensures StrengthVerdict("肩部", "啞鈴飛鳥") == Accepted
    ensures StrengthVerdict("背部", "啞鈴飛鳥") == AcceptedWithAdvisory
    ensures StrengthVerdict("胸部", "深蹲") == AcceptedWithAdvisory
    ensures StrengthVerdict("胸部", "跑步") == Unsupported
    ensures StrengthVerdict("手腕", "臥推") == Unsupported
  {
    assert "深蹲" in STRENGTH_CATEGORIES["腿部"];
  }

  /** The `strength_add` form. */
  datatype StrengthForm = StrengthForm(
    date: Option<Date>,
    bodyPart: Option<string>,
    exerciseName: Option<string>,
    weightKg: Field<real>,
    reps: Field<int>)

  predicate StrengthFormConverts(f: StrengthForm)
  {
    f.date.Some? && f.bodyPart.Some? && f.exerciseName.Some? && Converts(f.weightKg) && Converts(f.reps)
  }

  /** `strength_add` as written: like `diet_add`, an unparsable date leaves the date
      variable unassigned for the exception handler's redirect. */
  function StrengthAddAsWritten(f: StrengthForm): (r: Submission<StrengthSet>)
    ensures r.Crashed? <==> f.date.None?
  {
    if f.date.None? then Crashed
    else if !StrengthFormConverts(f) then Rejected(MalformedInput)
    else
      var s := StrengthSet(f.date.value, f.bodyPart.value, f.exerciseName.value,
                           Some(RealOr0(f.weightKg)), Some(IntOr0(f.reps)));
      match StrengthVerdict(f.bodyPart.value, f.exerciseName.value)
      case Unsupported => Rejected(UnsupportedExercise)
      case AcceptedWithAdvisory => Stored(s, true)
      case Accepted => Stored(s, false)
  }

  /** A submission with an unparsable date ends in an unhandled exception. */
  lemma StrengthAddAsWrittenCrashes()
    ensures StrengthAddAsWritten(StrengthForm(None, Some("胸部"), Some("臥推"), Parsed(60.0), Parsed(10))).Crashed?
  {
  }

  /** `strength_add` with the unparsable date reported like any other malformed field. */
  function StrengthAdd(f: StrengthForm): (r: Submission<StrengthSet>)
    ensures !r.Crashed?
    ensures r == Rejected(MalformedInput) <==> !StrengthFormConverts(f)
    ensures r == Rejected(UnsupportedExercise)
        <==> StrengthFormConverts(f) && (f.bodyPart.value !in STRENGTH_CATEGORIES || !ListedSomewhere(f.exerciseName.value))
    ensures r.Stored?
        <==> StrengthFormConverts(f) && f.bodyPart.value in STRENGTH_CATEGORIES && ListedSomewhere(f.exerciseName.value)
    ensures r.Stored? ==>
      && r.record == StrengthSet(f.date.value, f.bodyPart.value, f.exerciseName.value,
                                 Some(RealOr0(f.weightKg)), Some(IntOr0(f.reps)))
      && r.record.bodyPart in STRENGTH_CATEGORIES && ListedSomewhere(r.record.exerciseName)
      && (r.advisory <==> r.record.exerciseName !in STRENGTH_CATEGORIES[r.record.bodyPart])
  {
    if f.date.None? then Rejected(MalformedInput) else StrengthAddAsWritten(f)
  }

  // ----- calendar items -----

  /** The `add` and `edit` form: title and type (None when absent), the date and the two
      `%H:%M` times (Missing when absent), and the optional content. */
  datatype ItemForm = ItemForm(
    title: Option<string>,
    itemType: Option<string>,
    date: Field<Date>,
    start: Field<TimeOfDay>,
    end: Field<TimeOfDay>,
    content: Option<string>)

  /** The required fields are all present (reading them is the first thing the
      handler does). */
  predicate ItemFieldsPresent(f: ItemForm)
  {
    f.title.Some? && f.itemType.Some? && !f.date.Missing? && !f.start.Missing? && !f.end.Missing?
  }

  /** ... and the date and times convert (checked after title and type). */
  predicate ItemFieldsConvert(f: ItemForm)
  {
    ItemFieldsPresent(f) && f.date.Parsed? && f.start.Parsed? && f.end.Parsed?
  }

  /** What every calendar item the handlers store satisfies. */
  predicate ValidItem(it: CalendarItem)
  {
    && Trimmed(it.title)
    && it.itemType in ITEM_TYPES
    && it.start < it.end
  }

  /** `add`: title, then type, then the conversions, then end after start. */
  function AddItem(f: ItemForm): (r: Submission<CalendarItem>)
    ensures !r.Crashed? && (r.Stored? ==> !r.advisory)
    ensures r == Rejected(MalformedInput)
        <==> || !ItemFieldsPresent(f)
             || (Strip(f.title.value) != [] && f.itemType.value in ITEM_TYPES && !ItemFieldsConvert(f))
    ensures r == Rejected(EmptyTitle) <==> ItemFieldsPresent(f) && Strip(f.title.value) == []
    ensures r == Rejected(UnsupportedItemType)
        <==> ItemFieldsPresent(f) && Strip(f.title.value) != [] && f.itemType.value !in ITEM_TYPES
    ensures r == Rejected(EndNotAfterStart)
        <==> && ItemFieldsConvert(f) && Strip(f.title.value) != [] && f.itemType.value in ITEM_TYPES
             && f.end.value <= f.start.value
    ensures r.Stored? <==>
      && ItemFieldsConvert(f) && Strip(f.title.value) != [] && f.itemType.value in ITEM_TYPES
      && f.start.value < f.end.value
    ensures r.Stored? ==> ValidItem(r.record)
    ensures r.Stored? ==>
      r.record == CalendarItem(Strip(f.title.value), f.itemType.value, f.date.value,
                               f.start.value, f.end.value,
                               Strip(if f.content.Some? then f.content.value else ""))
  {
    if !ItemFieldsPresent(f) then Rejected(MalformedInput)
    else if Strip(f.title.value) == [] then Rejected(EmptyTitle)
    else if f.itemType.value !in ITEM_TYPES then Rejected(UnsupportedItemType)
    else if !ItemFieldsConvert(f) then Rejected(MalformedInput)
    else if f.end.value <= f.start.value then Rejected(EndNotAfterStart)
    else
      var content := if f.content.Some? then f.content.value else "";
      Stored(CalendarItem(Strip(f.title.value), f.itemType.value, f.date.value,
                          f.start.value, f.end.value, Strip(content)), false)
  }

  /** `edit` of an existing item: the same checks, with the item's fields overwritten
      from the form before the end-after-start check. Every field the model carries is
      taken from the form, so editing decides and stores exactly as adding does. */
  function EditItem(current: CalendarItem, f: ItemForm): (r: Submission<CalendarItem>)
    ensures r == AddItem(f)
    ensures r.Stored? ==> ValidItem(r.record)
  {
    if !ItemFieldsPresent(f) then Rejected(MalformedInput)
    else if Strip(f.title.value) == [] then Rejected(EmptyTitle)
    else if f.itemType.value !in ITEM_TYPES then Rejected(UnsupportedItemType)
    else if !ItemFieldsConvert(f) then Rejected(MalformedInput)
    else
      var content := if f.content.Some? then f.content.value else "";
      var updated := current.(title := Strip(f.title.value), itemType := f.itemType.value,
                              date := f.date.value, start := f.start.value, end := f.end.value,
                              content := Strip(content));
      if updated.end <= updated.start then Rejected(EndNotAfterStart)
      else Stored(updated, false)
  }
}
