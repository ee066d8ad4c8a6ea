/** The three record kinds app.py stores (calendar items, diet entries, strength
    sets) and the fixed vocabularies it validates them against. */
module Records {
  import opened Wrappers
  import opened Dates

  /** A `%H:%M` time of day, as minutes since midnight. */
  type TimeOfDay = t: int | 0 <= t < 1440

  /** A calendar item (table calendar_items). */
  datatype CalendarItem = CalendarItem(
    title: string,
    itemType: string,
    date: Date,
    start: TimeOfDay,
    end: TimeOfDay,
    content: string)

  /** A diet entry (table diet_entries). The nutrient columns are nullable floats;
      None stands for NULL. */
  datatype DietEntry = DietEntry(
    date: Date,
    mealType: string,
    foodName: string,
    kcal: Option<real>,
    proteinG: Option<real>,
    fatG: Option<real>,
    carbG: Option<real>)

  /** One performed strength set (table strength_sets). */
  datatype StrengthSet = StrengthSet(
    date: Date,
    bodyPart: string,
    exerciseName: string,
    weightKg: Option<real>,
    reps: Option<int>)

  /** A submitted query-string or form field after the conversion the handler applies
      to it (`int(...)`, `float(...)`, `strptime(...)`): absent (for the numeric form
      fields, absent or empty, which both default to 0), converted, or rejected by the
      conversion. */
  datatype Field<T> = Missing | Parsed(value: T) | Unparsable

  function ItemDate(it: CalendarItem): Date { it.date }
  function DietDate(e: DietEntry): Date { e.date }
  function MealOf(e: DietEntry): string { e.mealType }
  function SetDate(s: StrengthSet): Date { s.date }
  function PartOf(s: StrengthSet): string { s.bodyPart }
  function ExerciseOf(s: StrengthSet): string { s.exerciseName }

  /** Keys of ITEM_TYPES: work, reminder, event. */
  const ITEM_TYPES: seq<string> := ["工作", "提醒", "活動"]

  /** Keys of MEAL_TYPES: breakfast, lunch, dinner, snack. */
  const MEAL_TYPES: seq<string> := ["早餐", "午餐", "晚餐", "點心"]

  /** Keys of STRENGTH_CATEGORIES in their declared order: chest, back, legs, glutes,
      arms, core, shoulders. */
  const BODY_PARTS: seq<string> := ["胸部", "背部", "腿部", "臀部", "手臂", "核心", "肩部"]

  /** The exercise catalog: body part to its exercises. One exercise may be listed
      under several body parts (the dumbbell fly under chest and shoulders). */
  const STRENGTH_CATEGORIES: map<string, seq<string>> := map[
    "胸部" := ["臥推", "啞鈴飛鳥", "啞鈴胸夾", "伏地挺身"],
    "背部" := ["引體向上", "槓鈴或啞鈴划船", "坐姿划船"],
    "腿部" := ["深蹲", "硬舉", "弓箭步", "腿推機"],
    "臀部" := ["臀推", "羅馬尼亞硬舉", "臀橋"],
    "手臂" := ["二頭肌彎舉", "三頭肌撐體"],
    "核心" := ["仰臥抬腿", "棒式支撐", "捲腹"],
    "肩部" := ["肩推", "啞鈴飛鳥"]
  ]

  /** The catalog's keys, listed once each and in declaration order. */
  lemma BodyPartsAreCatalogKeys()
    ensures forall i, j :: 0 <= i < j < |BODY_PARTS| ==> BODY_PARTS[i] != BODY_PARTS[j]
    ensures forall p :: p in STRENGTH_CATEGORIES <==> p in BODY_PARTS
  {
  }

  /** Concatenation of a list of lists, as `sum(lists, [])` builds it. */
  function Flatten(lists: seq<seq<string>>): (r: seq<string>)
  {
    if lists == [] then [] else lists[0] + Flatten(lists[1..])
  }

  lemma {:induction false} FlattenMember(lists: seq<seq<string>>, x: string)
    ensures x in Flatten(lists) <==> exists i :: 0 <= i < |lists| && x in lists[i]
  {
    if lists != [] {
      FlattenMember(lists[1..], x);
      if x in Flatten(lists[1..]) {
        var i :| 0 <= i < |lists[1..]| && x in lists[1..][i];
        assert x in lists[i + 1];
      }
      if exists i :: 0 <= i < |lists| && x in lists[i] {
        var i :| 0 <= i < |lists| && x in lists[i];
        if i > 0 {
          assert x in lists[1..][i - 1];
        }
      }
    }
  }

  /** `sum(STRENGTH_CATEGORIES.values(), [])`: every exercise of the catalog, body
      part by body part. */
  function AllExercises(): (r: seq<string>)
  {
    Flatten(seq(|BODY_PARTS|, i requires 0 <= i < |BODY_PARTS| => STRENGTH_CATEGORIES[BODY_PARTS[i]]))
  }

  /** An exercise is in the flattened catalog exactly when some body part lists it. */
  lemma AllExercisesMember(x: string)
    ensures x in AllExercises() <==> exists p :: p in STRENGTH_CATEGORIES && x in STRENGTH_CATEGORIES[p]
  {
    var lists := seq(|BODY_PARTS|, i requires 0 <= i < |BODY_PARTS| => STRENGTH_CATEGORIES[BODY_PARTS[i]]);
    FlattenMember(lists, x);
    BodyPartsAreCatalogKeys();
    if exists p :: p in STRENGTH_CATEGORIES && x in STRENGTH_CATEGORIES[p] {
      var p :| p in STRENGTH_CATEGORIES && x in STRENGTH_CATEGORIES[p];
      var i :| 0 <= i < |BODY_PARTS| && BODY_PARTS[i] == p;
      assert x in lists[i];
    }
  }

  /** The catalog is many-to-many: the dumbbell fly is listed under chest and shoulders. */
  lemma CatalogIsManyToMany()
    ensures "啞鈴飛鳥" in STRENGTH_CATEGORIES["胸部"] && "啞鈴飛鳥" in STRENGTH_CATEGORIES["肩部"]
  {
  }
}
