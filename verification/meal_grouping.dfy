/** Building the week view of the meal planner (app/meals/service.py,
    `get_meals_by_date_range`): the joined meal/item/food rows of one user and
    date range are grouped by date and then by meal slot, each meal's
    micronutrients are aggregated, and each day gets its summary. */
module MealGrouping {
  import opened Wrappers
  import opened Calendar
  import opened MealModels
  import opened MealService

  /** One row of the meals LEFT JOIN meal_items LEFT JOIN foods query: a meal
      with at most one of its food items (`food` is None when the meal has no
      item, or the item no food). */
  datatype MealRow = MealRow(
    userId: string,
    mealId: string,
    mealDate: Date,
    dayOfWeek: string,
    mealType: string,
    notes: Option<string>,
    food: Option<FoodRow>)

  /** Food id to nutrient names, as read from the food-nutrient table. */
  type NutrientsMap = map<string, seq<string>>

  /** `nutrients_map.get(food_id, [])`. */
  function NutrientsOf(m: NutrientsMap, id: string): seq<string> {
    if id in m then m[id] else []
  }

  /** `if row['id']`: the row carries a food, with a non-empty id. */
  predicate HasFood(r: MealRow) {
    r.food.Some? && r.food.value.id != ""
  }

  /** The slot a row's meal goes to. */
  function RowSlot(r: MealRow): Slot {
    MapMealTypeToKey(r.mealType)
  }

  /** The food item a row contributes. */
  function ItemOf(r: MealRow, nut: NutrientsMap): FoodItem
    requires HasFood(r)
  {
    MapFoodItem(r.food.value, NutrientsOf(nut, r.food.value.id))
  }

  // ---------------------------------------------------------------------
  // The query
  // ---------------------------------------------------------------------

  /** The rows the query's WHERE clause keeps: the user's meals logged
      between `start` and `end`, both included, in table order. */
  function Select(table: seq<MealRow>, user: string, start: Date, end: Date): (sel: seq<MealRow>)
    ensures forall r :: r in sel <==> r in table && r.userId == user && start <= r.mealDate <= end
  {
    if table == [] then []
    else
      var rest := Select(table[1..], user, start, end);
      if table[0].userId == user && start <= table[0].mealDate <= end then [table[0]] + rest else rest
  }

  // ---------------------------------------------------------------------
  // Reference definition of the grouping (rows folded from the left, so
  // each function looks at the last row of the prefix)
  // ---------------------------------------------------------------------

  /** The distinct dates of `rows`, in order of first appearance: the key
      order of the `day_map` dictionary. */
  function Dates(rows: seq<MealRow>): seq<Date>
    decreases |rows|
  {
    if rows == [] then []
    else
      var pre := Dates(rows[..|rows| - 1]);
      var d := rows[|rows| - 1].mealDate;
      if d in pre then pre else pre + [d]
  }

  /** The rows logged on date `d`, in order. */
  function DateRows(rows: seq<MealRow>, d: Date): seq<MealRow>
    decreases |rows|
  {
    if rows == [] then []
    else
      var pre := DateRows(rows[..|rows| - 1], d);
      if rows[|rows| - 1].mealDate == d then pre + [rows[|rows| - 1]] else pre
  }

  /** The rows of date `d` that go to slot `s`, in order. */
  function SlotRows(rows: seq<MealRow>, d: Date, s: Slot): seq<MealRow>
    decreases |rows|
  {
    if rows == [] then []
    else
      var pre := SlotRows(rows[..|rows| - 1], d, s);
      var r := rows[|rows| - 1];
      if r.mealDate == d && RowSlot(r) == s then pre + [r] else pre
  }

  /** The food items of the rows that carry one, in order. */
  function FoodItems(rows: seq<MealRow>, nut: NutrientsMap): seq<FoodItem>
    decreases |rows|
  {
    if rows == [] then []
    else
      var pre := FoodItems(rows[..|rows| - 1], nut);
      var r := rows[|rows| - 1];
      if HasFood(r) then pre + [ItemOf(r, nut)] else pre
  }

  /** The meal of slot `s` on date `d` before aggregation: created from the
      first row for that slot, with the food items of all of them. */
  function RawMeal(rows: seq<MealRow>, d: Date, s: Slot, nut: NutrientsMap): Option<Meal> {
    var rs := SlotRows(rows, d, s);
    if rs == [] then None
    else Some(Meal(rs[0].mealId, rs[0].mealType, FoodItems(rs, nut), DefaultPresence, rs[0].notes))
  }

  /** The day of date `d` before aggregation: its weekday name comes from its
      first row, and its summary is still the placeholder. */
  function RawDay(rows: seq<MealRow>, d: Date, nut: NutrientsMap): DayData {
    var ds := DateRows(rows, d);
    DayData(
      d,
      if ds == [] then "" else ds[0].dayOfWeek,
      DayMeals(RawMeal(rows, d, Breakfast, nut), RawMeal(rows, d, Snack1, nut),
        RawMeal(rows, d, Lunch, nut), RawMeal(rows, d, Snack2, nut), RawMeal(rows, d, Dinner, nut)),
      PlaceholderSummary)
  }

  // ---------------------------------------------------------------------
  // One row at a time
  // ---------------------------------------------------------------------

  /** What the loop body does to a slot: create the meal from the row when
      the slot is empty, then append the row's food item if it has one. */
  function AddRow(cur: Option<Meal>, r: MealRow, nut: NutrientsMap): (m: Option<Meal>)
    ensures m.Some?
    ensures cur.Some? ==> m.value.id == cur.value.id && m.value.notes == cur.value.notes
    ensures cur.None? ==> m.value.id == r.mealId && m.value.notes == r.notes
    ensures cur.Some? ==> m.value.mealType == cur.value.mealType
    ensures cur.None? ==> m.value.mealType == r.mealType
    ensures cur.Some? ==> m.value.containsMicronutrients == cur.value.containsMicronutrients
    ensures cur.None? ==> m.value.containsMicronutrients == DefaultPresence
    ensures m.value.items ==
      (if cur.Some? then cur.value.items else []) + (if HasFood(r) then [ItemOf(r, nut)] else [])
  {
    var base := if cur.None? then Meal(r.mealId, r.mealType, [], DefaultPresence, r.notes) else cur.value;
    Some(if HasFood(r) then base.(items := base.items + [ItemOf(r, nut)]) else base)
  }

  lemma SnocPrefix(rows: seq<MealRow>, r: MealRow)
    ensures (rows + [r])[..|rows|] == rows
    ensures (rows + [r])[|rows|] == r
  {
  }

  lemma SlotRowsWithinDate(rows: seq<MealRow>, d: Date, s: Slot)
    ensures DateRows(rows, d) == [] ==> SlotRows(rows, d, s) == []
    decreases |rows|
  {
    if rows != [] {
      SlotRowsWithinDate(rows[..|rows| - 1], d, s);
    }
  }

  /** Adding a row for date `d` changes slot `s` of that day exactly as the
      loop body does. */
  lemma RawMealStep(rows: seq<MealRow>, r: MealRow, d: Date, s: Slot, nut: NutrientsMap)
    ensures RawMeal(rows + [r], d, s, nut) ==
      if r.mealDate == d && RowSlot(r) == s then AddRow(RawMeal(rows, d, s, nut), r, nut)
      else RawMeal(rows, d, s, nut)
  {
    SnocPrefix(rows, r);
    var rs := SlotRows(rows, d, s);
    if r.mealDate == d && RowSlot(r) == s {
      assert SlotRows(rows + [r], d, s) == rs + [r];
      SnocPrefix(rs, r);
      assert FoodItems(rs + [r], nut) ==
        FoodItems(rs, nut) + (if HasFood(r) then [ItemOf(r, nut)] else []);
      if rs != [] {
        assert (rs + [r])[0] == rs[0];
      }
    }
  }

  /** The loop body's update of the row's day: add the row to its slot. */
  function Bump(day: DayData, r: MealRow, nut: NutrientsMap): DayData {
    day.(meals := day.meals.Set(RowSlot(r), AddRow(day.meals.Get(RowSlot(r)), r, nut)))
  }

  /** The day a row on a new date starts. */
  function NewDay(r: MealRow): DayData {
    DayData(r.mealDate, r.dayOfWeek, NoMeals, PlaceholderSummary)
  }

  /** The step lemma for whole days: a row leaves other dates alone, and on
      its own date starts the day if needed and then updates its slot. */
  lemma RawDayStep(rows: seq<MealRow>, r: MealRow, d: Date, nut: NutrientsMap)
    ensures d != r.mealDate ==> RawDay(rows + [r], d, nut) == RawDay(rows, d, nut)
    ensures d == r.mealDate && DateRows(rows, d) == [] ==> RawDay(rows + [r], d, nut) == Bump(NewDay(r), r, nut)
    ensures d == r.mealDate && DateRows(rows, d) != [] ==> RawDay(rows + [r], d, nut) == Bump(RawDay(rows, d, nut), r, nut)
  {
    SnocPrefix(rows, r);
    var rs := DateRows(rows, d);
    if d == r.mealDate {
      assert DateRows(rows + [r], d) == rs + [r];
      if rs != [] {
        assert (rs + [r])[0] == rs[0];
      }
    }
    forall s ensures RawMeal(rows + [r], d, s, nut) ==
      if r.mealDate == d && RowSlot(r) == s then AddRow(RawMeal(rows, d, s, nut), r, nut)
      else RawMeal(rows, d, s, nut)
    {
      RawMealStep(rows, r, d, s, nut);
    }
    forall s ensures DateRows(rows, d) == [] ==> RawMeal(rows, d, s, nut) == None {
      SlotRowsWithinDate(rows, d, s);
    }
  }

  /** `Dates` lists every date of `rows` once. */
  lemma {:induction false} DatesMeaning(rows: seq<MealRow>)
    ensures forall d :: d in Dates(rows) <==> DateRows(rows, d) != []
    ensures forall i, j :: 0 <= i < j < |Dates(rows)| ==> Dates(rows)[i] != Dates(rows)[j]
    decreases |rows|
  {
    if rows != [] {
      var pre := rows[..|rows| - 1];
      DatesMeaning(pre);
      SnocPrefix(pre, rows[|rows| - 1]);
      assert pre + [rows[|rows| - 1]] == rows;
    }
  }

  lemma {:induction false} DateRowsMeaning(rows: seq<MealRow>, d: Date)
    ensures DateRows(rows, d) != [] <==> exists i :: 0 <= i < |rows| && rows[i].mealDate == d
    decreases |rows|
  {
    if rows != [] {
      var pre := rows[..|rows| - 1];
      DateRowsMeaning(pre, d);
      if exists i :: 0 <= i < |pre| && pre[i].mealDate == d {
        var i :| 0 <= i < |pre| && pre[i].mealDate == d;
        assert rows[i] == pre[i];
      }
      if exists i :: 0 <= i < |rows| && rows[i].mealDate == d {
        var i :| 0 <= i < |rows| && rows[i].mealDate == d;
        if i < |pre| {
          assert pre[i] == rows[i];
        }
      }
    }
  }

  /** A date is grouped exactly when some row carries it, and no date twice. */
  lemma GroupedDates(rows: seq<MealRow>)
    ensures forall d :: d in Dates(rows) <==> exists i :: 0 <= i < |rows| && rows[i].mealDate == d
    ensures forall i, j :: 0 <= i < j < |Dates(rows)| ==> Dates(rows)[i] != Dates(rows)[j]
  {
    DatesMeaning(rows);
    forall d ensures DateRows(rows, d) != [] <==> exists i :: 0 <= i < |rows| && rows[i].mealDate == d {
      DateRowsMeaning(rows, d);
    }
  }

  /** Rows in ascending date order (as the query's ORDER BY returns them)
      give days in strictly ascending date order. */
  lemma {:induction false} SortedRowsGiveSortedDays(rows: seq<MealRow>)
    requires forall i, j :: 0 <= i <= j < |rows| ==> rows[i].mealDate <= rows[j].mealDate
    ensures forall i, j :: 0 <= i < j < |Dates(rows)| ==> Dates(rows)[i] < Dates(rows)[j]
    decreases |rows|
  {
    if rows != [] {
      var pre := rows[..|rows| - 1];
      var last := rows[|rows| - 1];
      SortedRowsGiveSortedDays(pre);
      GroupedDates(pre);
      var ds := Dates(pre);
      forall k | 0 <= k < |ds| ensures ds[k] <= last.mealDate {
        assert ds[k] in ds;
        var i :| 0 <= i < |pre| && pre[i].mealDate == ds[k];
        assert rows[i] == pre[i];
      }
      if last.mealDate !in ds {
        assert Dates(rows) == ds + [last.mealDate];
        forall k | 0 <= k < |ds| ensures ds[k] < last.mealDate {
          assert ds[k] in ds;
        }
      }
    }
  }

  // ---------------------------------------------------------------------
  // What a grouped meal holds
  // ---------------------------------------------------------------------

  /** Row `r` is on date `d` in slot `s`. */
  predicate OnSlot(r: MealRow, d: Date, s: Slot) {
    r.mealDate == d && RowSlot(r) == s
  }

  /** Row `i` is the first one on date `d` in slot `s`. */
  predicate FirstOnSlot(rows: seq<MealRow>, i: int, d: Date, s: Slot) {
    0 <= i < |rows| && OnSlot(rows[i], d, s) && forall j :: 0 <= j < i ==> !OnSlot(rows[j], d, s)
  }

  /** The slot's rows are exactly the rows on that date and slot. */
  lemma {:induction false} SlotRowsMembers(rows: seq<MealRow>, d: Date, s: Slot)
    ensures forall r :: r in SlotRows(rows, d, s) <==> r in rows && OnSlot(r, d, s)
    decreases |rows|
  {
    if rows != [] {
      var pre := rows[..|rows| - 1];
      SlotRowsMembers(pre, d, s);
      assert rows == pre + [rows[|rows| - 1]];
    }
  }

  /** The slot's first row is the first row of the input on that date and slot. */
  lemma {:induction false} SlotRowsHead(rows: seq<MealRow>, d: Date, s: Slot)
    ensures SlotRows(rows, d, s) != [] ==>
      exists i :: 0 <= i < |rows| && FirstOnSlot(rows, i, d, s) && rows[i] == SlotRows(rows, d, s)[0]
    decreases |rows|
  {
    if rows != [] {
      var pre := rows[..|rows| - 1];
      var last := rows[|rows| - 1];
      var rs := SlotRows(rows, d, s);
      if SlotRows(pre, d, s) != [] {
        SlotRowsHead(pre, d, s);
        var i :| 0 <= i < |pre| && FirstOnSlot(pre, i, d, s) && pre[i] == SlotRows(pre, d, s)[0];
        assert forall j :: 0 <= j <= i ==> rows[j] == pre[j];
        assert FirstOnSlot(rows, i, d, s);
        assert rs[0] == SlotRows(pre, d, s)[0];
      } else if rs != [] {
        SlotRowsMembers(pre, d, s);
        assert rs == [last];
        assert forall j :: 0 <= j < |pre| ==> pre[j] in pre && rows[j] == pre[j];
        assert FirstOnSlot(rows, |pre|, d, s);
      }
    }
  }

  lemma SlotRowsMeaning(rows: seq<MealRow>, d: Date, s: Slot)
    ensures forall r :: r in SlotRows(rows, d, s) <==> r in rows && OnSlot(r, d, s)
    ensures SlotRows(rows, d, s) != [] ==>
      exists i :: 0 <= i < |rows| && FirstOnSlot(rows, i, d, s) && rows[i] == SlotRows(rows, d, s)[0]
  {
    SlotRowsMembers(rows, d, s);
    SlotRowsHead(rows, d, s);
  }

  lemma {:induction false} FoodItemsMeaning(rows: seq<MealRow>, nut: NutrientsMap)
    ensures forall x :: x in FoodItems(rows, nut) <==>
      exists r :: r in rows && HasFood(r) && ItemOf(r, nut) == x
    decreases |rows|
  {
    if rows != [] {
      var pre := rows[..|rows| - 1];
      FoodItemsMeaning(pre, nut);
      assert rows == pre + [rows[|rows| - 1]];
    }
  }

  /** The items keep row order and multiplicity: the items of two runs of
      rows, one after the other, are the first run's items followed by the
      second's, and a single row gives its item when it carries a food and
      nothing otherwise. */
  lemma FoodItemsInRowOrder(a: seq<MealRow>, b: seq<MealRow>, nut: NutrientsMap)
    ensures FoodItems(a + b, nut) == FoodItems(a, nut) + FoodItems(b, nut)
    ensures |b| == 1 ==> FoodItems(b, nut) == (if HasFood(b[0]) then [ItemOf(b[0], nut)] else [])
  {
    FoodItemsAppend(a, b, nut);
    if |b| == 1 {
      FoodItemsOne(b, nut);
    }
  }

  lemma {:induction false} FoodItemsAppend(a: seq<MealRow>, b: seq<MealRow>, nut: NutrientsMap)
    ensures FoodItems(a + b, nut) == FoodItems(a, nut) + FoodItems(b, nut)
    decreases |b|
  {
    if b == [] {
      assert a + b == a;
    } else {
      var b', x := b[..|b| - 1], b[|b| - 1];
      FoodItemsAppend(a, b', nut);
      assert a + b == (a + b') + [x];
      FoodItemsSnoc(a + b', x, nut);
      FoodItemsSnoc(b', x, nut);
      assert b' + [x] == b;
    }
  }

  /** One more row at the end adds its item, if any, at the end. */
  lemma FoodItemsSnoc(rows: seq<MealRow>, x: MealRow, nut: NutrientsMap)
    ensures FoodItems(rows + [x], nut) == FoodItems(rows, nut) + (if HasFood(x) then [ItemOf(x, nut)] else [])
  {
    SnocPrefix(rows, x);
  }

  lemma FoodItemsOne(b: seq<MealRow>, nut: NutrientsMap)
    requires |b| == 1
    ensures FoodItems(b, nut) == (if HasFood(b[0]) then [ItemOf(b[0], nut)] else [])
  {
    assert b[..0] == [];
  }

  /** The meal carries the id and notes of the first row on date `d` in slot `s`. */
  predicate CreatedByFirstRow(rows: seq<MealRow>, d: Date, s: Slot, m: Meal) {
    exists i :: 0 <= i < |rows| && FirstOnSlot(rows, i, d, s) && m.id == rows[i].mealId && m.notes == rows[i].notes
  }

  /** A grouped slot holds a meal exactly when some row of that date maps to
      the slot; the meal's id and notes are those of the first such row, and
      its items are exactly the food items of all such rows. */
  lemma RawMealMeaning(rows: seq<MealRow>, d: Date, s: Slot, nut: NutrientsMap)
    ensures var m := RawMeal(rows, d, s, nut);
      && (m.Some? <==> exists i :: 0 <= i < |rows| && OnSlot(rows[i], d, s))
      && (m.Some? ==> CreatedByFirstRow(rows, d, s, m.value))
      && (m.Some? ==> forall x :: x in m.value.items <==>
            exists r :: r in rows && OnSlot(r, d, s) && HasFood(r) && ItemOf(r, nut) == x)
  {
    var rs := SlotRows(rows, d, s);
    SlotRowsMeaning(rows, d, s);
    FoodItemsMeaning(rs, nut);
    if exists i :: 0 <= i < |rows| && OnSlot(rows[i], d, s) {
      var i :| 0 <= i < |rows| && OnSlot(rows[i], d, s);
      assert rows[i] in rs;
    }
    if rs != [] {
      assert rs[0] in rs;
    }
  }

  // ---------------------------------------------------------------------
  // The grouping loop
  // ---------------------------------------------------------------------

  /** The position of date `d` among the days, or `|days|` when it has none. */
  method FindDay(days: seq<DayData>, d: Date) returns (j: nat)
    ensures j <= |days|
    ensures j < |days| ==> days[j].date == d
    ensures j == |days| ==> forall k :: 0 <= k < |days| ==> days[k].date != d
  {
    j := 0;
    while j < |days| && days[j].date != d
      invariant j <= |days|
      invariant forall k :: 0 <= k < j ==> days[k].date != d
    {
      j := j + 1;
    }
  }

  /** The days are the raw days of `rows`, one per date, in order. */
  predicate GroupedAs(days: seq<DayData>, rows: seq<MealRow>, nut: NutrientsMap) {
    && |days| == |Dates(rows)|
    && forall k :: 0 <= k < |days| ==> days[k] == RawDay(rows, Dates(rows)[k], nut)
  }

  /** A row on a date not seen yet starts a new day at the end. */
  lemma NewDayStep(days: seq<DayData>, pre: seq<MealRow>, r: MealRow, nut: NutrientsMap)
    requires GroupedAs(days, pre, nut) && r.mealDate !in Dates(pre)
    ensures GroupedAs(days + [Bump(NewDay(r), r, nut)], pre + [r], nut)
  {
    SnocPrefix(pre, r);
    DatesMeaning(pre);
    var ds := Dates(pre);
    assert DateRows(pre, r.mealDate) == [];
    assert Dates(pre + [r]) == ds + [r.mealDate];
    var nd := days + [Bump(NewDay(r), r, nut)];
    forall k | 0 <= k < |ds| + 1 ensures nd[k] == RawDay(pre + [r], (ds + [r.mealDate])[k], nut) {
      if k < |ds| {
        assert ds[k] in ds;
        RawDayStep(pre, r, ds[k], nut);
      } else {
        RawDayStep(pre, r, r.mealDate, nut);
      }
    }
  }

  /** A row on a date already seen updates that day in place. */
  lemma OldDayStep(days: seq<DayData>, pre: seq<MealRow>, r: MealRow, j: nat, nut: NutrientsMap)
    requires GroupedAs(days, pre, nut) && j < |days| && Dates(pre)[j] == r.mealDate
    ensures GroupedAs(days[j := Bump(days[j], r, nut)], pre + [r], nut)
  {
    SnocPrefix(pre, r);
    DatesMeaning(pre);
    var ds := Dates(pre);
    assert ds[j] in ds;
    assert DateRows(pre, r.mealDate) != [];
    assert Dates(pre + [r]) == ds;
    var nd := days[j := Bump(days[j], r, nut)];
    forall k | 0 <= k < |ds| ensures nd[k] == RawDay(pre + [r], ds[k], nut) {
      RawDayStep(pre, r, ds[k], nut);
      if k != j {
        assert ds[k] != ds[j];
      }
    }
  }

  /** One turn of the grouping loop: find or start the row's day, then add
      the row to its slot. */
  method AddToDays(days: seq<DayData>, pre: seq<MealRow>, r: MealRow, nut: NutrientsMap)
    returns (days': seq<DayData>)
    requires GroupedAs(days, pre, nut)
    ensures GroupedAs(days', pre + [r], nut)
  {
    assert forall k :: 0 <= k < |days| ==> days[k].date == Dates(pre)[k];
    var j := FindDay(days, r.mealDate);
    if j == |days| {
      NewDayStep(days, pre, r, nut);
      days' := days + [Bump(NewDay(r), r, nut)];
    } else {
      OldDayStep(days, pre, r, j, nut);
      days' := days[j := Bump(days[j], r, nut)];
    }
  }

  /** The first loop of `get_meals_by_date_range`: one day per distinct date
      in order of first appearance, each holding its raw meals. */
  method GroupRows(rows: seq<MealRow>, nut: NutrientsMap) returns (days: seq<DayData>)
    ensures |days| == |Dates(rows)|
    ensures forall k :: 0 <= k < |days| ==> days[k] == RawDay(rows, Dates(rows)[k], nut)
  {
    days := [];
    var i := 0;
    while i < |rows|
      invariant 0 <= i <= |rows|
      invariant GroupedAs(days, rows[..i], nut)
    {
      assert rows[..i + 1] == rows[..i] + [rows[i]];
      days := AddToDays(days, rows[..i], rows[i], nut);
      i := i + 1;
    }
    assert rows[..i] == rows;
  }

  // ---------------------------------------------------------------------
  // Aggregation and summary
  // ---------------------------------------------------------------------

  /** A meal with its presence set replaced by the aggregate of its items. */
  function FinalizeMeal(m: Option<Meal>): (r: Option<Meal>)
    ensures r.Some? <==> m.Some?
    ensures m.Some? ==> r.value.items == m.value.items && r.value.id == m.value.id
    ensures m.Some? ==> r.value.mealType == m.value.mealType && r.value.notes == m.value.notes
    ensures m.Some? ==> r.value.containsMicronutrients == AggregateMicronutrients(m.value.items)
    ensures m.Some? ==> forall f :: FlagSet(r.value.containsMicronutrients, f) <==>
      exists i :: 0 <= i < |m.value.items| && FlagSet(m.value.items[i].containsMicronutrients, f)
    ensures m.Some? ==> var p := r.value.containsMicronutrients;
      p.vitaminD.Some? && p.omega3.Some? && p.fiber.Some?
  {
    if m.None? then None
    else Some(m.value.(containsMicronutrients := AggregateMicronutrients(m.value.items)))
  }

  /** The second loop of `get_meals_by_date_range` for one day: every present
      meal aggregated, then the summary computed from them. */
  function FinalizeDay(day: DayData): (r: DayData)
    ensures r.date == day.date && r.dayOfWeek == day.dayOfWeek
    ensures forall s :: r.meals.Get(s) == FinalizeMeal(day.meals.Get(s))
  {
    var meals := FinalizeMeals(day.meals);
    day.(meals := meals, dailySummary := CalculateDailySummary(meals))
  }

  /** A finished day's summary describes its aggregated meals. */
  lemma FinalizedDaySummary(day: DayData)
    ensures var r := FinalizeDay(day);
      && (forall n :: StatusMeaning(r.meals, n, r.dailySummary.Of(n)))
      && MissingMeaning(r.dailySummary)
      && (r.dailySummary.hasWarnings <==> DayHasWarning(r.meals))
  {
  }

  /** Every slot of a day finalized. */
  function FinalizeMeals(m: DayMeals): (r: DayMeals)
    ensures forall s :: r.Get(s) == FinalizeMeal(m.Get(s))
  {
    DayMeals(FinalizeMeal(m.breakfast), FinalizeMeal(m.snack1), FinalizeMeal(m.lunch),
      FinalizeMeal(m.snack2), FinalizeMeal(m.dinner))
  }

  /** The finished days of some rows: one per distinct date, in order of
      first appearance, each the grouped day of that date with its meals
      aggregated and its summary computed. */
  predicate FinishedDays(days: seq<DayData>, rows: seq<MealRow>, nut: NutrientsMap) {
    && |days| == |Dates(rows)|
    && forall k :: 0 <= k < |days| ==> days[k] == FinalizeDay(RawDay(rows, Dates(rows)[k], nut))
  }

  /** `get_meals_by_date_range`: the user's rows between `start` and `end`,
      grouped into one finished day per distinct date. */
  method GetMealsByDateRange(table: seq<MealRow>, user: string, start: Date, end: Date, nut: NutrientsMap)
    returns (days: seq<DayData>)
    ensures FinishedDays(days, Select(table, user, start, end), nut)
  {
    var sel := Select(table, user, start, end);
    var raw := GroupRows(sel, nut);
    days := seq(|raw|, k requires 0 <= k < |raw| => FinalizeDay(raw[k]));
  }

  /** Every returned day is a date in the range on which the user logged a
      meal, and no date is returned twice. */
  lemma DaysInRange(table: seq<MealRow>, user: string, start: Date, end: Date)
    ensures var ds := Dates(Select(table, user, start, end));
      && (forall d :: d in ds <==>
            exists r :: r in table && r.userId == user && r.mealDate == d && start <= d <= end)
      && forall i, j :: 0 <= i < j < |ds| ==> ds[i] != ds[j]
  {
    var sel := Select(table, user, start, end);
    GroupedDates(sel);
    forall d ensures d in Dates(sel) <==>
      exists r :: r in table && r.userId == user && r.mealDate == d && start <= d <= end
    {
      if exists r :: r in table && r.userId == user && r.mealDate == d && start <= d <= end {
        var r :| r in table && r.userId == user && r.mealDate == d && start <= d <= end;
        var i :| 0 <= i < |sel| && sel[i] == r;
      }
    }
  }

  // ---------------------------------------------------------------------
  // The week view
  // ---------------------------------------------------------------------

  /** `get_week_meals`: the start date string is parsed to find the end date
      six days later, and a string that does not parse raises, which is the
      failure case here; otherwise the days of the seven dates from the start. */
  method GetWeekMeals(table: seq<MealRow>, user: string, startDate: string, parse: string -> Option<Date>,
                      nut: NutrientsMap) returns (r: Result<seq<DayData>, string>)
    ensures r.Failure? <==> parse(startDate).None?
    ensures r.Success? ==> |r.value| <= 7
    ensures r.Success? ==>
      var start := parse(startDate).value;
      FinishedDays(r.value, Select(table, user, start, start + 6), nut)
  {
    var parsed := parse(startDate);
    if parsed.None? {
      return Failure("time data does not match format '%Y-%m-%d'");
    }
    var start := parsed.value;
    var days := GetMealsByDateRange(table, user, start, start + 6, nut);
    WeekHasAtMostSevenDays(table, user, start);
    r := Success(days);
  }

  /** The rows of a seven-day range fall on at most seven distinct dates. */
  lemma WeekHasAtMostSevenDays(table: seq<MealRow>, user: string, start: Date)
    ensures |Dates(Select(table, user, start, start + 6))| <= 7
  {
    var sel := Select(table, user, start, start + 6);
    var ds := Dates(sel);
    DatesMeaning(sel);
    forall i | 0 <= i < |ds| ensures start <= ds[i] < start + 7 {
      assert ds[i] in ds;
      DateRowsMeaning(sel, ds[i]);
      var j :| 0 <= j < |sel| && sel[j].mealDate == ds[i];
      assert sel[j] in sel;
    }
    DistinctInRangeBound(ds, start, 7);
  }

  /** A repeat-free sequence of integers drawn from `n` consecutive values
      has at most `n` entries. */
  lemma DistinctInRangeBound(ds: seq<int>, a: int, n: nat)
    requires forall i, j :: 0 <= i < j < |ds| ==> ds[i] != ds[j]
    requires forall i :: 0 <= i < |ds| ==> a <= ds[i] < a + n
    ensures |ds| <= n
  {
    var elems := set i | 0 <= i < |ds| :: ds[i];
    DistinctCard(ds);
    SubsetCard(elems, Range(a, n));
  }

  /** The `n` consecutive integers from `a` on. */
  function Range(a: int, n: nat): (r: set<int>)
    ensures forall x :: x in r <==> a <= x < a + n
    ensures |r| == n
  {
    if n == 0 then {} else Range(a, n - 1) + {a + n - 1}
  }

  lemma {:induction false} DistinctCard(ds: seq<int>)
    requires forall i, j :: 0 <= i < j < |ds| ==> ds[i] != ds[j]
    ensures |set i | 0 <= i < |ds| :: ds[i]| == |ds|
  {
    if ds != [] {
      var rest := ds[1..];
      DistinctCard(rest);
      var e := set i | 0 <= i < |ds| :: ds[i];
      var er := set i | 0 <= i < |rest| :: rest[i];
      assert e == {ds[0]} + er by {
        forall x | x in e ensures x in {ds[0]} + er {
          var i :| 0 <= i < |ds| && ds[i] == x;
          if i > 0 {
            assert rest[i - 1] == x;
          }
        }
        forall x | x in er ensures x in e {
          var i :| 0 <= i < |rest| && rest[i] == x;
          assert ds[i + 1] == x;
        }
      }
      assert ds[0] !in er;
    }
  }

  lemma {:induction false} SubsetCard<T>(s: set<T>, t: set<T>)
    requires s <= t
    ensures |s| <= |t|
    decreases |s|
  {
    if |s| > 0 {
      var x :| x in s;
      SubsetCard(s - {x}, t - {x});
    }
  }
}
