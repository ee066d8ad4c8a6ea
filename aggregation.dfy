/** What the day, week and month pages compute from the records they fetch: the diet
    totals, the strength load, the body part → exercise grouping, and the date
    filters the queries apply. */
module Aggregation {
  import opened Wrappers
  import opened Dates
  import opened Records
  import opened Grouping

  /** `x or 0`: a missing (NULL) value counts as zero. */
  function OrZero(v: Option<real>): real
  {
    if v.Some? then v.value else 0.0
  }

  function KcalOf(e: DietEntry): real { OrZero(e.kcal) }
  function ProteinOf(e: DietEntry): real { OrZero(e.proteinG) }
  function FatOf(e: DietEntry): real { OrZero(e.fatG) }
  function CarbOf(e: DietEntry): real { OrZero(e.carbG) }

  /** The four quantities of `totals_diet`. */
  datatype Macros = Macros(kcal: real, proteinG: real, fatG: real, carbG: real)

  function Plus(a: Macros, b: Macros): Macros
  {
    Macros(a.kcal + b.kcal, a.proteinG + b.proteinG, a.fatG + b.fatG, a.carbG + b.carbG)
  }

  /** One entry's contribution, missing values as zero. */
  function MacrosOf(e: DietEntry): Macros
  {
    Macros(KcalOf(e), ProteinOf(e), FatOf(e), CarbOf(e))
  }

  /** `totals_diet`: each quantity summed over the day's entries. */
  function DietTotals(diets: seq<DietEntry>): Macros
  {
    Macros(SumBy(diets, KcalOf), SumBy(diets, ProteinOf), SumBy(diets, FatOf), SumBy(diets, CarbOf))
  }

  /** A day without entries totals zero on every quantity. */
  lemma DietTotalsOfNothing()
    ensures DietTotals([]) == Macros(0.0, 0.0, 0.0, 0.0)
  {
  }

  /** Appending one entry adds exactly its values, missing ones as zero. */
  lemma DietTotalsAppend(diets: seq<DietEntry>, e: DietEntry)
    ensures DietTotals(diets + [e]) == Plus(DietTotals(diets), MacrosOf(e))
    ensures e.kcal.None? ==> DietTotals(diets + [e]).kcal == DietTotals(diets).kcal
  {
    SumBySnoc(diets, e, KcalOf);
    SumBySnoc(diets, e, ProteinOf);
    SumBySnoc(diets, e, FatOf);
    SumBySnoc(diets, e, CarbOf);
  }

  /** The totals of two lists of entries add up. */
  lemma DietTotalsConcat(a: seq<DietEntry>, b: seq<DietEntry>)
    ensures DietTotals(a + b) == Plus(DietTotals(a), DietTotals(b))
  {
    SumByConcat(a, b, KcalOf);
    SumByConcat(a, b, ProteinOf);
    SumByConcat(a, b, FatOf);
    SumByConcat(a, b, CarbOf);
  }

  /** The per-meal subtotals of the grouped entries add up to the day's totals, when the
      listed meals are distinct and cover every entry. */
  lemma DietTotalsByMeal(diets: seq<DietEntry>, meals: seq<string>)
    requires Distinct(meals)
    requires forall i :: 0 <= i < |diets| ==> diets[i].mealType in meals
    ensures SumOfBuckets(diets, MealOf, meals, KcalOf) == DietTotals(diets).kcal
    ensures SumOfBuckets(diets, MealOf, meals, ProteinOf) == DietTotals(diets).proteinG
    ensures SumOfBuckets(diets, MealOf, meals, FatOf) == DietTotals(diets).fatG
    ensures SumOfBuckets(diets, MealOf, meals, CarbOf) == DietTotals(diets).carbG
  {
    SumOverBuckets(diets, MealOf, meals, KcalOf);
    SumOverBuckets(diets, MealOf, meals, ProteinOf);
    SumOverBuckets(diets, MealOf, meals, FatOf);
    SumOverBuckets(diets, MealOf, meals, CarbOf);
  }

  /** One set's load, weight × reps, a missing weight or rep count as zero. */
  function SetLoad(s: StrengthSet): real
  {
    OrZero(s.weightKg) * (if s.reps.Some? then s.reps.value as real else 0.0)
  }

  /** `total_weight`: Σ weight × reps over the day's sets. */
  function TotalLoad(sets: seq<StrengthSet>): real
  {
    SumBy(sets, SetLoad)
  }

  /** No sets, no load. */
  lemma TotalLoadOfNothing()
    ensures TotalLoad([]) == 0.0
  {
  }

  /** Appending one set adds its weight × reps, and a set with a missing weight or rep
      count adds nothing. */
  lemma TotalLoadAppend(sets: seq<StrengthSet>, s: StrengthSet)
    ensures TotalLoad(sets + [s]) == TotalLoad(sets) + OrZero(s.weightKg) * (if s.reps.Some? then s.reps.value as real else 0.0)
    ensures s.weightKg.None? || s.reps.None? ==> TotalLoad(sets + [s]) == TotalLoad(sets)
  {
    SumBySnoc(sets, s, SetLoad);
  }

  /** Two bench-press sets, 60 kg × 10 and 40 kg × 5, load 800 kg. */
  lemma TotalLoadExample(d: Date)
    ensures TotalLoad([StrengthSet(d, "胸部", "臥推", Some(60.0), Some(10)),
                       StrengthSet(d, "胸部", "臥推", Some(40.0), Some(5))]) == 800.0
  {
    var a := StrengthSet(d, "胸部", "臥推", Some(60.0), Some(10));
    var b := StrengthSet(d, "胸部", "臥推", Some(40.0), Some(5));
    SumBySnoc([a], b, SetLoad);
    SumBySnoc([], a, SetLoad);
    assert [a] + [b] == [a, b];
  }

  /** The loads of the body-part groups add up to the day's load, when the listed parts
      are distinct and cover every set. */
  lemma TotalLoadByPart(sets: seq<StrengthSet>, parts: seq<string>)
    requires Distinct(parts)
    requires forall i :: 0 <= i < |sets| ==> sets[i].bodyPart in parts
    ensures SumOfBuckets(sets, PartOf, parts, SetLoad) == TotalLoad(sets)
  {
    SumOverBuckets(sets, PartOf, parts, SetLoad);
  }

  /** `m` is the dictionary `by_part` built from `sets`: one entry per body part that
      occurs, holding that part's sets grouped by exercise. */
  ghost predicate IsNestedGrouping(m: map<string, map<string, seq<StrengthSet>>>, sets: seq<StrengthSet>)
  {
    && m.Keys == KeysOf(sets, PartOf)
    && forall p :: p in m ==> IsGrouping(m[p], Bucket(sets, PartOf, p), ExerciseOf)
  }

  /** One turn of the `by_part` loop: `setdefault` the part, then `setdefault` the
      exercise and append. */
  function AddSet(m: map<string, map<string, seq<StrengthSet>>>, s: StrengthSet): map<string, map<string, seq<StrengthSet>>>
  {
    m[s.bodyPart := Add(if s.bodyPart in m then m[s.bodyPart] else map[], s.exerciseName, s)]
  }

  /** The dictionary the `by_part` loop has built once it has seen `sets`. */
  function NestedGrouped(sets: seq<StrengthSet>): map<string, map<string, seq<StrengthSet>>>
  {
    if sets == [] then map[] else AddSet(NestedGrouped(sets[..|sets| - 1]), sets[|sets| - 1])
  }

  /** The entry of one body part is the exercise grouping of that part's sets. */
  lemma {:induction false} NestedGroupedPart(sets: seq<StrengthSet>, p: string)
    ensures p in NestedGrouped(sets) <==> p in KeysOf(sets, PartOf)
    ensures p in NestedGrouped(sets) ==> NestedGrouped(sets)[p] == Grouped(Bucket(sets, PartOf, p), ExerciseOf)
  {
    if sets != [] {
      var init := sets[..|sets| - 1];
      var s := sets[|sets| - 1];
      assert sets == init + [s];
      NestedGroupedPart(init, p);
      BucketSnoc(init, s, PartOf, p);
      if s.bodyPart == p {
        if p !in NestedGrouped(init) {
          BucketNonEmpty(init, PartOf, p);
        }
        GroupedSnoc(Bucket(init, PartOf, p), s, ExerciseOf);
      } else {
        assert Bucket(sets, PartOf, p) == Bucket(init, PartOf, p);
      }
    }
  }

  /** The loop's dictionary is the nested grouping of the sets. */
  lemma NestedGroupedIsNestedGrouping(sets: seq<StrengthSet>)
    ensures IsNestedGrouping(NestedGrouped(sets), sets)
  {
    var m := NestedGrouped(sets);
    forall p
      ensures p in m <==> p in KeysOf(sets, PartOf)
      ensures p in m ==> IsGrouping(m[p], Bucket(sets, PartOf, p), ExerciseOf)
    {
      NestedGroupedPart(sets, p);
      GroupedIsGrouping(Bucket(sets, PartOf, p), ExerciseOf);
    }
  }

  /** `by_part`: the day's sets grouped by body part, and within a part by exercise,
      each innermost list in input order. */
  method GroupByPartAndExercise(sets: seq<StrengthSet>) returns (m: map<string, map<string, seq<StrengthSet>>>)
    ensures IsNestedGrouping(m, sets)
  {
    m := map[];
    var i := 0;
    while i < |sets|
      invariant 0 <= i <= |sets|
      invariant m == NestedGrouped(sets[..i])
    {
      var s := sets[i];
      var inner := if s.bodyPart in m then m[s.bodyPart] else map[];
      var bucket := if s.exerciseName in inner then inner[s.exerciseName] else [];
      assert sets[..i + 1][..i] == sets[..i];
      m := m[s.bodyPart := inner[s.exerciseName := bucket + [s]]];
      i := i + 1;
    }
    assert sets[..|sets|] == sets;
    NestedGroupedIsNestedGrouping(sets);
  }

  /** A set in the nested grouping sits under its own body part and its own exercise. */
  lemma NestedGroupingPlacesEachSet(m: map<string, map<string, seq<StrengthSet>>>, sets: seq<StrengthSet>, i: int)
    requires IsNestedGrouping(m, sets)
    requires 0 <= i < |sets|
    ensures sets[i].bodyPart in m && sets[i].exerciseName in m[sets[i].bodyPart]
    ensures sets[i] in m[sets[i].bodyPart][sets[i].exerciseName]
  {
    var s := sets[i];
    var b := Bucket(sets, PartOf, s.bodyPart);
    BucketNonEmpty(sets, PartOf, s.bodyPart);
    assert s.bodyPart in m;
    BucketCount(sets, PartOf, s.bodyPart, s);
    assert s in multiset(b);
    assert IsGrouping(m[s.bodyPart], b, ExerciseOf);
    BucketNonEmpty(b, ExerciseOf, s.exerciseName);
    BucketCount(b, ExerciseOf, s.exerciseName, s);
  }

  /** The nested grouping is empty exactly when there are no sets. */
  lemma NestedGroupingEmpty(m: map<string, map<string, seq<StrengthSet>>>, sets: seq<StrengthSet>)
    requires IsNestedGrouping(m, sets)
    ensures m == map[] <==> sets == []
  {
    if sets != [] {
      BucketNonEmpty(sets, PartOf, sets[0].bodyPart);
      assert sets[0].bodyPart in m;
    }
  }

  /** The calendar items whose date lies in [lo, hi], in input order (the query's
      `date BETWEEN lo AND hi`). */
  function ItemsBetween(items: seq<CalendarItem>, lo: Date, hi: Date): seq<CalendarItem>
  {
    if items == [] then []
    else
      var last := items[|items| - 1];
      ItemsBetween(items[..|items| - 1], lo, hi) + (if lo <= last.date <= hi then [last] else [])
  }

  /** The filter keeps exactly the items dated in [lo, hi] and nothing else. */
  lemma {:induction false} ItemsBetweenMembers(items: seq<CalendarItem>, lo: Date, hi: Date)
    ensures |ItemsBetween(items, lo, hi)| <= |items|
    ensures forall i :: 0 <= i < |ItemsBetween(items, lo, hi)| ==> lo <= ItemsBetween(items, lo, hi)[i].date <= hi
    ensures forall it :: it in ItemsBetween(items, lo, hi) <==> it in items && lo <= it.date <= hi
  {
    if items != [] {
      var init := items[..|items| - 1];
      ItemsBetweenMembers(init, lo, hi);
      assert items == init + [items[|items| - 1]];
    }
  }

  /** Grouping the items of a range by date gives each day of the range exactly the
      items of that day, in input order, and gives days outside it nothing. */
  lemma {:induction false} ItemsBetweenByDate(items: seq<CalendarItem>, lo: Date, hi: Date, d: Date)
    ensures Bucket<Date, CalendarItem>(ItemsBetween(items, lo, hi), ItemDate, d) == if lo <= d <= hi then Bucket<Date, CalendarItem>(items, ItemDate, d) else []
  {
    if items != [] {
      var init := items[..|items| - 1];
      var last := items[|items| - 1];
      assert items == init + [last];
      ItemsBetweenByDate(init, lo, hi, d);
      BucketSnoc<Date, CalendarItem>(init, last, ItemDate, d);
      var kept := ItemsBetween(init, lo, hi);
      if lo <= last.date <= hi {
        BucketSnoc<Date, CalendarItem>(kept, last, ItemDate, d);
      } else {
        assert ItemsBetween(items, lo, hi) == kept + [] == kept;
        if last.date != d {
          assert Bucket<Date, CalendarItem>(init, ItemDate, d) + [] == Bucket<Date, CalendarItem>(init, ItemDate, d);
        }
      }
    }
  }

  /** Every date that gets an entry when the items of [lo, hi] are grouped lies in
      [lo, hi], and every such date carrying an item gets one. */
  lemma ItemsBetweenKeys(items: seq<CalendarItem>, lo: Date, hi: Date, d: Date)
    ensures d in KeysOf<Date, CalendarItem>(ItemsBetween(items, lo, hi), ItemDate) <==> lo <= d <= hi && d in KeysOf<Date, CalendarItem>(items, ItemDate)
  {
    ItemsBetweenByDate(items, lo, hi, d);
    BucketNonEmpty<Date, CalendarItem>(ItemsBetween(items, lo, hi), ItemDate, d);
    BucketNonEmpty<Date, CalendarItem>(items, ItemDate, d);
  }

  /** `strength_dates_between(lo, hi)`: the dates in [lo, hi] with at least one set. */
  function StrengthDatesBetween(lo: Date, hi: Date, sets: seq<StrengthSet>): (r: set<Date>)
    ensures forall d :: d in r ==> lo <= d <= hi
  {
    set i | 0 <= i < |sets| && lo <= sets[i].date <= hi :: sets[i].date
  }

  /** A date is marked as a training day exactly when it lies in the range and the day
      page for it lists at least one set. */
  lemma StrengthDatesAreTrainingDays(lo: Date, hi: Date, sets: seq<StrengthSet>, d: Date)
    ensures d in StrengthDatesBetween(lo, hi, sets) <==> lo <= d <= hi && Bucket<Date, StrengthSet>(sets, SetDate, d) != []
  {
    BucketNonEmpty<Date, StrengthSet>(sets, SetDate, d);
    if lo <= d <= hi && Bucket<Date, StrengthSet>(sets, SetDate, d) != [] {
      var i :| 0 <= i < |sets| && SetDate(sets[i]) == d;
      assert sets[i].date in StrengthDatesBetween(lo, hi, sets);
    }
  }
}
