/** The pure derivation rules of the meal service (app/meals/service.py):
    decoding food rows, OR-aggregating a meal's micronutrients, mapping meal
    labels to slots, and computing a day's nutrient summary. */
module MealService {
  import opened Wrappers
  import opened MealModels

  // ---------------------------------------------------------------------
  // Aggregation of a meal's micronutrients
  // ---------------------------------------------------------------------

  /** Some item of `items` has flag `f` set. */
  function AnyHas(items: seq<FoodItem>, f: Flag): (r: bool)
    ensures r <==> exists i :: 0 <= i < |items| && FlagSet(items[i].containsMicronutrients, f)
  {
    if items == [] then false
    else FlagSet(items[0].containsMicronutrients, f) || AnyHas(items[1..], f)
  }

  /** A meal's presence set: each flag is the OR of the items' flags. The
      three optional flags come out as a plain boolean, never None, because
      `any(...)` always yields one. */
  function AggregateMicronutrients(items: seq<FoodItem>): (r: MicronutrientPresence)
    ensures forall f :: FlagSet(r, f) <==>
      exists i :: 0 <= i < |items| && FlagSet(items[i].containsMicronutrients, f)
    ensures r.vitaminD.Some? && r.omega3.Some? && r.fiber.Some?
  {
    MicronutrientPresence(
      AnyHas(items, Calcium),
      AnyHas(items, Iron),
      AnyHas(items, FolicAcid),
      AnyHas(items, Protein),
      Some(AnyHas(items, VitaminD)),
      Some(AnyHas(items, Omega3)),
      Some(AnyHas(items, Fiber)))
  }

  /** Two presence sets whose optional flags are all present agree when
      every flag agrees. */
  lemma PresenceByFlags(p: MicronutrientPresence, q: MicronutrientPresence)
    requires p.vitaminD.Some? && p.omega3.Some? && p.fiber.Some?
    requires q.vitaminD.Some? && q.omega3.Some? && q.fiber.Some?
    requires forall f :: FlagSet(p, f) == FlagSet(q, f)
    ensures p == q
  {
    assert FlagSet(p, Calcium) == FlagSet(q, Calcium);
    assert FlagSet(p, Iron) == FlagSet(q, Iron);
    assert FlagSet(p, FolicAcid) == FlagSet(q, FolicAcid);
    assert FlagSet(p, Protein) == FlagSet(q, Protein);
    assert FlagSet(p, VitaminD) == FlagSet(q, VitaminD);
    assert FlagSet(p, Omega3) == FlagSet(q, Omega3);
    assert FlagSet(p, Fiber) == FlagSet(q, Fiber);
    assert p.vitaminD.value == q.vitaminD.value;
    assert p.omega3.value == q.omega3.value;
    assert p.fiber.value == q.fiber.value;
  }

  /** An empty meal provides nothing: all seven flags are false. */
  lemma AggregateEmpty()
    ensures AggregateMicronutrients([]) ==
      MicronutrientPresence(false, false, false, false, Some(false), Some(false), Some(false))
  {
  }

  /** Only which items occur matters: reordering or duplicating items never
      changes the aggregate. */
  lemma AggregateDependsOnlyOnItemSet(a: seq<FoodItem>, b: seq<FoodItem>)
    requires forall x :: x in a <==> x in b
    ensures AggregateMicronutrients(a) == AggregateMicronutrients(b)
  {
    var p, q := AggregateMicronutrients(a), AggregateMicronutrients(b);
    forall f ensures FlagSet(p, f) == FlagSet(q, f) {
      if FlagSet(p, f) {
        var i :| 0 <= i < |a| && FlagSet(a[i].containsMicronutrients, f);
        assert a[i] in b;
        var j :| 0 <= j < |b| && b[j] == a[i];
      }
      if FlagSet(q, f) {
        var j :| 0 <= j < |b| && FlagSet(b[j].containsMicronutrients, f);
        assert b[j] in a;
        var i :| 0 <= i < |a| && a[i] == b[j];
      }
    }
    PresenceByFlags(p, q);
  }

  /** Flag-wise OR of two presence sets. */
  function Or(p: MicronutrientPresence, q: MicronutrientPresence): MicronutrientPresence {
    MicronutrientPresence(
      p.calcium || q.calcium, p.iron || q.iron, p.folicAcid || q.folicAcid, p.protein || q.protein,
      Some(FlagSet(p, VitaminD) || FlagSet(q, VitaminD)),
      Some(FlagSet(p, Omega3) || FlagSet(q, Omega3)),
      Some(FlagSet(p, Fiber) || FlagSet(q, Fiber)))
  }

  /** Each flag of the OR is set iff it is set on either side. */
  lemma OrFlags(p: MicronutrientPresence, q: MicronutrientPresence)
    ensures forall f :: FlagSet(Or(p, q), f) == (FlagSet(p, f) || FlagSet(q, f))
  {
    forall f ensures FlagSet(Or(p, q), f) == (FlagSet(p, f) || FlagSet(q, f)) {
      match f
      case Calcium =>
      case Iron =>
      case FolicAcid =>
      case Protein =>
      case VitaminD =>
      case Omega3 =>
      case Fiber =>
    }
  }

  /** Aggregation is a homomorphism from concatenation to OR: adding items to
      a meal can only switch flags on. */
  lemma AggregateAppend(a: seq<FoodItem>, b: seq<FoodItem>)
    ensures AggregateMicronutrients(a + b) ==
      Or(AggregateMicronutrients(a), AggregateMicronutrients(b))
  {
    var p, q := AggregateMicronutrients(a + b), Or(AggregateMicronutrients(a), AggregateMicronutrients(b));
    OrFlags(AggregateMicronutrients(a), AggregateMicronutrients(b));
    forall f ensures FlagSet(p, f) == FlagSet(q, f) {
      if FlagSet(p, f) {
        var i :| 0 <= i < |a + b| && FlagSet((a + b)[i].containsMicronutrients, f);
        if i < |a| {
          assert (a + b)[i] == a[i];
        } else {
          assert (a + b)[i] == b[i - |a|];
        }
      }
      if FlagSet(q, f) {
        if FlagSet(AggregateMicronutrients(a), f) {
          var i :| 0 <= i < |a| && FlagSet(a[i].containsMicronutrients, f);
          assert (a + b)[i] == a[i];
        } else {
          var i :| 0 <= i < |b| && FlagSet(b[i].containsMicronutrients, f);
          assert (a + b)[|a| + i] == b[i];
        }
      }
    }
    PresenceByFlags(p, q);
  }

  // ---------------------------------------------------------------------
  // Daily summary
  // ---------------------------------------------------------------------

  /** Slot `s` holds a meal whose presence set has nutrient `n`. */
  predicate Provides(meals: DayMeals, s: Slot, n: Nutrient) {
    meals.Get(s).Some? && FlagSet(meals.Get(s).value.containsMicronutrients, n.AsFlag())
  }

  /** Slots listed in strictly increasing display order (so without repeats). */
  predicate InSlotOrder(slots: seq<Slot>) {
    forall i, j :: 0 <= i < j < |slots| ==> slots[i].Index() < slots[j].Index()
  }

  /** The slots of `slots` that provide `n`, visited in the given order. */
  function Covering(meals: DayMeals, slots: seq<Slot>, n: Nutrient): (r: seq<Slot>)
    requires InSlotOrder(slots)
    ensures forall s :: s in r <==> s in slots && Provides(meals, s, n)
    ensures InSlotOrder(r)
    ensures |r| <= |slots|
    ensures forall i :: 0 <= i < |r| ==> r[i] in slots
  {
    if slots == [] then []
    else
      var rest := Covering(meals, slots[1..], n);
      if Provides(meals, slots[0], n) then [slots[0]] + rest else rest
  }

  /** `get_status`: missing when uncovered, good from two slots on, else moderate. */
  function GetStatus(covered: bool, mealCount: nat): Status {
    if !covered then Missing
    else if mealCount >= 2 then Good
    else Moderate
  }

  /** What a nutrient's status promises: the covering slots are exactly the
      present meals that provide it, in slot order without repeats; it is
      covered iff some slot covers it; and the status is missing for no slot,
      moderate for exactly one and good for two or more. */
  predicate StatusMeaning(meals: DayMeals, n: Nutrient, ns: NutrientStatus) {
    && (forall t :: t in ns.mealsCovered <==> Provides(meals, t, n))
    && InSlotOrder(ns.mealsCovered)
    && (ns.covered <==> ns.mealsCovered != [])
    && (ns.status == Missing <==> !ns.covered)
    && (ns.status == Moderate <==> |ns.mealsCovered| == 1)
    && (ns.status == Good <==> |ns.mealsCovered| >= 2)
  }

  lemma AllSlotsInOrder()
    ensures InSlotOrder(AllSlots)
    ensures forall s :: s in AllSlots
  {
    forall s ensures s in AllSlots {
      assert AllSlots[s.Index()] == s;
    }
  }

  /** One nutrient's entry of the summary. */
  function NutrientSummary(meals: DayMeals, n: Nutrient): (ns: NutrientStatus)
    ensures StatusMeaning(meals, n, ns)
  {
    AllSlotsInOrder();
    var slots := Covering(meals, AllSlots, n);
    NutrientStatus(slots != [], slots, GetStatus(slots != [], |slots|))
  }

  /** The slot holds a meal with some item that carries a warning. */
  predicate MealWarns(m: Option<Meal>) {
    m.Some? && exists i :: 0 <= i < |m.value.items| && m.value.items[i].hasWarnings
  }

  /** Some item of some present meal carries a warning. */
  predicate DayHasWarning(meals: DayMeals) {
    exists t :: MealWarns(meals.Get(t))
  }

  /** Some of the listed slots holds a meal with a warning item. */
  function SlotsWarn(meals: DayMeals, slots: seq<Slot>): (r: bool)
    ensures r <==> exists k :: 0 <= k < |slots| && MealWarns(meals.Get(slots[k]))
  {
    if slots == [] then false
    else
      MealWarns(meals.Get(slots[0])) || SlotsWarn(meals, slots[1..])
  }

  /** Nutrients listed in strictly increasing summary order (so without repeats). */
  predicate InNutrientOrder(ns: seq<Nutrient>) {
    forall i, j :: 0 <= i < j < |ns| ==> ns[i].Index() < ns[j].Index()
  }

  /** How many of the four nutrients a summary marks covered. */
  function CoveredCount(s: DailySummary): nat {
    (if s.calcium.covered then 1 else 0) + (if s.iron.covered then 1 else 0) +
    (if s.folicAcid.covered then 1 else 0) + (if s.protein.covered then 1 else 0)
  }

  /** The uncovered nutrients, checked in the order Calcium, Iron, Folic Acid, Protein. */
  function MissingList(c: bool, i: bool, f: bool, p: bool): seq<Nutrient> {
    (if c then [] else [CalciumN]) + (if i then [] else [IronN]) +
    (if f then [] else [FolicAcidN]) + (if p then [] else [ProteinN])
  }

  /** What the missing list promises: it holds exactly the uncovered
      nutrients, in the order Calcium, Iron, Folic Acid, Protein, and so has
      one entry per uncovered nutrient. */
  predicate MissingMeaning(s: DailySummary) {
    && (forall n :: n in s.missingNutrients <==> !s.Of(n).covered)
    && InNutrientOrder(s.missingNutrients)
    && |s.missingNutrients| == 4 - CoveredCount(s)
  }

  /** `_calculate_daily_summary`. */
  function CalculateDailySummary(meals: DayMeals): (s: DailySummary)
    ensures forall n :: StatusMeaning(meals, n, s.Of(n))
    ensures MissingMeaning(s)
    ensures s.hasWarnings <==> DayHasWarning(meals)
  {
    var w := SlotsWarn(meals, AllSlots);
    SlotsWarnAll(meals);
    var c, i, f, p := NutrientSummary(meals, CalciumN), NutrientSummary(meals, IronN),
      NutrientSummary(meals, FolicAcidN), NutrientSummary(meals, ProteinN);
    var s := DailySummary(c, i, f, p, w, MissingList(c.covered, i.covered, f.covered, p.covered));
    SummaryEntries(meals, s);
    MissingListMeaning(s);
    s
  }

  lemma MissingListMeaning(s: DailySummary)
    requires s.missingNutrients ==
      MissingList(s.calcium.covered, s.iron.covered, s.folicAcid.covered, s.protein.covered)
    ensures MissingMeaning(s)
  {
    forall n ensures n in s.missingNutrients <==> !s.Of(n).covered {
      match n
      case CalciumN =>
      case IronN =>
      case FolicAcidN =>
      case ProteinN =>
    }
  }

  /** The `missingNutrients` strings of the source: the display names of
      the listed nutrients, in list order. */
  function MissingNames(s: DailySummary): (names: seq<string>)
    ensures |names| == |s.missingNutrients|
  {
    seq(|s.missingNutrients|, i requires 0 <= i < |s.missingNutrients| => s.missingNutrients[i].DisplayName())
  }

  /** The names hold exactly the display names of the uncovered nutrients,
      one per uncovered nutrient, each drawn from the four fixed names. */
  lemma MissingNamesMeaning(s: DailySummary)
    requires MissingMeaning(s)
    ensures forall n: Nutrient :: n.DisplayName() in MissingNames(s) <==> !s.Of(n).covered
    ensures |MissingNames(s)| == 4 - CoveredCount(s)
    ensures forall x :: x in MissingNames(s) ==> x in ["Calcium", "Iron", "Folic Acid", "Protein"]
  {
    var names := MissingNames(s);
    forall n: Nutrient ensures n.DisplayName() in names <==> n in s.missingNutrients {
      if n.DisplayName() in names {
        var i :| 0 <= i < |names| && names[i] == n.DisplayName();
        assert s.missingNutrients[i].DisplayName() == n.DisplayName();
        assert s.missingNutrients[i] == n;
      }
      if n in s.missingNutrients {
        var i :| 0 <= i < |s.missingNutrients| && s.missingNutrients[i] == n;
        assert names[i] == n.DisplayName();
      }
    }
  }

  lemma SlotsWarnAll(meals: DayMeals)
    ensures SlotsWarn(meals, AllSlots) <==> DayHasWarning(meals)
  {
    if DayHasWarning(meals) {
      var t :| MealWarns(meals.Get(t));
      assert AllSlots[t.Index()] == t;
    }
  }

  lemma SummaryEntries(meals: DayMeals, s: DailySummary)
    requires s.calcium == NutrientSummary(meals, CalciumN)
    requires s.iron == NutrientSummary(meals, IronN)
    requires s.folicAcid == NutrientSummary(meals, FolicAcidN)
    requires s.protein == NutrientSummary(meals, ProteinN)
    ensures forall n :: s.Of(n) == NutrientSummary(meals, n)
  {
    forall n ensures s.Of(n) == NutrientSummary(meals, n) {
      match n
      case CalciumN =>
      case IronN =>
      case FolicAcidN =>
      case ProteinN =>
    }
  }

  /** A day without meals: every nutrient missing, all four names listed, no warning. */
  lemma EmptyDaySummary(meals: DayMeals)
    requires forall t :: meals.Get(t).None?
    ensures var s := CalculateDailySummary(meals);
      && (forall n :: s.Of(n) == NutrientStatus(false, [], Missing))
      && s.missingNutrients == [CalciumN, IronN, FolicAcidN, ProteinN]
      && !s.hasWarnings
  {
    var s := CalculateDailySummary(meals);
    var m := s.missingNutrients;
    forall n ensures s.Of(n) == NutrientStatus(false, [], Missing) {
      UncoveredStatus(meals, n, s.Of(n));
    }
    assert s.Of(CalciumN).covered == s.calcium.covered && s.Of(IronN).covered == s.iron.covered;
    assert s.Of(FolicAcidN).covered == s.folicAcid.covered && s.Of(ProteinN).covered == s.protein.covered;
    assert |m| == 4;
    assert m[0].Index() < m[1].Index() < m[2].Index() < m[3].Index();
  }

  /** A nutrient no slot provides has the empty, missing status. */
  lemma UncoveredStatus(meals: DayMeals, n: Nutrient, ns: NutrientStatus)
    requires StatusMeaning(meals, n, ns)
    requires forall t :: !Provides(meals, t, n)
    ensures ns == NutrientStatus(false, [], Missing)
  {
    HeadIsMember(ns.mealsCovered);
  }

  lemma HeadIsMember<T>(xs: seq<T>)
    ensures xs != [] ==> xs[0] in xs
  {
  }

  /** For a day whose meals carry the aggregate of their items, a nutrient is
      covered exactly when some item of some present meal has it. */
  lemma CoveredIffSomeItemHasIt(meals: DayMeals, n: Nutrient)
    requires forall t :: meals.Get(t).Some? ==>
      meals.Get(t).value.containsMicronutrients == AggregateMicronutrients(meals.Get(t).value.items)
    ensures CalculateDailySummary(meals).Of(n).covered <==>
      exists t, i :: meals.Get(t).Some? && 0 <= i < |meals.Get(t).value.items| &&
        FlagSet(meals.Get(t).value.items[i].containsMicronutrients, n.AsFlag())
  {
    var s := CalculateDailySummary(meals);
    if s.Of(n).covered {
      var t := s.Of(n).mealsCovered[0];
      assert t in s.Of(n).mealsCovered;
      assert Provides(meals, t, n);
    }
    if exists t, i :: meals.Get(t).Some? && 0 <= i < |meals.Get(t).value.items| &&
        FlagSet(meals.Get(t).value.items[i].containsMicronutrients, n.AsFlag()) {
      var t, i :| meals.Get(t).Some? && 0 <= i < |meals.Get(t).value.items| &&
        FlagSet(meals.Get(t).value.items[i].containsMicronutrients, n.AsFlag());
      assert Provides(meals, t, n);
      assert t in s.Of(n).mealsCovered;
    }
  }

  // ---------------------------------------------------------------------
  // Meal-type labels
  // ---------------------------------------------------------------------

  /** `_map_meal_type_to_key`: the five labels map to their slots and any
      other label falls back to breakfast. */
  function MapMealTypeToKey(mealType: string): Slot {
    if mealType == "Breakfast" then Breakfast
    else if mealType == "Snack 1" then Snack1
    else if mealType == "Lunch" then Lunch
    else if mealType == "Snack 2" then Snack2
    else if mealType == "Dinner" then Dinner
    else Breakfast
  }

  /** Mapping a slot's own label gives the slot back; unknown labels give breakfast. */
  lemma MealTypeKeyRoundTrip(s: Slot, mealType: string)
    ensures MapMealTypeToKey(s.Label()) == s
    ensures (forall t: Slot :: mealType != t.Label()) ==> MapMealTypeToKey(mealType) == Breakfast
  {
    if forall t: Slot :: mealType != t.Label() {
      assert mealType != Snack1.Label() && mealType != Lunch.Label();
      assert mealType != Snack2.Label() && mealType != Dinner.Label();
    }
  }

  // ---------------------------------------------------------------------
  // Nutrient names and food rows
  // ---------------------------------------------------------------------

  /** The nutrient-table name of each flag. */
  function FlagName(f: Flag): string {
    match f
    case Calcium => "calcium"
    case Iron => "iron"
    case FolicAcid => "folate"
    case Protein => "protein"
    case VitaminD => "vitamin_d"
    case Omega3 => "dha"
    case Fiber => "fiber"
  }

  /** Position of a flag in the order `_insert_nutrient_mappings` checks them. */
  function FlagIndex(f: Flag): nat {
    match f
    case Calcium => 0
    case Iron => 1
    case FolicAcid => 2
    case Protein => 3
    case VitaminD => 4
    case Omega3 => 5
    case Fiber => 6
  }

  /** The flag a nutrient-table name stands for, if any. */
  function NameFlag(name: string): (r: Option<Flag>)
    ensures r.Some? ==> FlagName(r.value) == name
  {
    if name == "calcium" then Some(Calcium)
    else if name == "iron" then Some(Iron)
    else if name == "folate" then Some(FolicAcid)
    else if name == "protein" then Some(Protein)
    else if name == "vitamin_d" then Some(VitaminD)
    else if name == "dha" then Some(Omega3)
    else if name == "fiber" then Some(Fiber)
    else None
  }

  /** Table names are distinct: reading a flag's name back gives the flag. */
  lemma NameFlagOfFlagName(f: Flag)
    ensures NameFlag(FlagName(f)) == Some(f)
  {
  }

  lemma FlagNameInjective(f: Flag, g: Flag)
    ensures FlagName(f) == FlagName(g) ==> f == g
  {
    NameFlagOfFlagName(f);
    NameFlagOfFlagName(g);
  }

  /** All seven flags in the order `_insert_nutrient_mappings` checks them. */
  const AllFlags: seq<Flag> := [Calcium, Iron, FolicAcid, Protein, VitaminD, Omega3, Fiber]

  predicate InFlagOrder(fs: seq<Flag>) {
    forall i, j :: 0 <= i < j < |fs| ==> FlagIndex(fs[i]) < FlagIndex(fs[j])
  }

  /** The flags of `fs` that `p` sets, in the order of `fs`. */
  function SetFlagsFrom(p: MicronutrientPresence, fs: seq<Flag>): (r: seq<Flag>)
    ensures forall f :: f in r <==> f in fs && FlagSet(p, f)
  {
    if fs == [] then []
    else (if FlagSet(p, fs[0]) then [fs[0]] else []) + SetFlagsFrom(p, fs[1..])
  }

  /** Filtering keeps the flag order. */
  lemma {:induction false} SetFlagsFromOrdered(p: MicronutrientPresence, fs: seq<Flag>)
    requires InFlagOrder(fs)
    ensures InFlagOrder(SetFlagsFrom(p, fs))
  {
    if fs != [] {
      var tail := fs[1..];
      var rest := SetFlagsFrom(p, tail);
      assert InFlagOrder(tail) by {
        forall i, j | 0 <= i < j < |tail| ensures FlagIndex(tail[i]) < FlagIndex(tail[j]) {
          assert tail[i] == fs[i + 1] && tail[j] == fs[j + 1];
        }
      }
      SetFlagsFromOrdered(p, tail);
      forall k | 0 <= k < |rest| ensures FlagIndex(fs[0]) < FlagIndex(rest[k]) {
        assert rest[k] in rest;
        var j :| 0 <= j < |tail| && tail[j] == rest[k];
        assert fs[j + 1] == rest[k];
      }
    }
  }

  /** The flags `_insert_nutrient_mappings` writes a name for, in its order. */
  function EncodeFlags(p: MicronutrientPresence): (fs: seq<Flag>)
    ensures forall f :: f in fs <==> FlagSet(p, f)
    ensures InFlagOrder(fs)
  {
    assert forall f :: f in AllFlags by {
      forall f ensures f in AllFlags {
        assert AllFlags[FlagIndex(f)] == f;
      }
    }
    SetFlagsFromOrdered(p, AllFlags);
    SetFlagsFrom(p, AllFlags)
  }

  function FlagNames(fs: seq<Flag>): (names: seq<string>)
    ensures |names| == |fs|
    ensures forall i :: 0 <= i < |fs| ==> names[i] == FlagName(fs[i])
  {
    if fs == [] then [] else [FlagName(fs[0])] + FlagNames(fs[1..])
  }

  /** The nutrient names `_insert_nutrient_mappings` writes for a food: one
      name per set flag, each once. */
  function EncodeNutrients(p: MicronutrientPresence): (names: seq<string>)
    ensures forall f :: FlagName(f) in names <==> FlagSet(p, f)
    ensures forall i, j :: 0 <= i < j < |names| ==> names[i] != names[j]
    ensures forall x :: x in names ==> NameFlag(x).Some?
  {
    var fs := EncodeFlags(p);
    EncodedNamesMeaning(fs);
    FlagNames(fs)
  }

  lemma EncodedNamesMeaning(fs: seq<Flag>)
    requires InFlagOrder(fs)
    ensures forall f :: FlagName(f) in FlagNames(fs) <==> f in fs
    ensures forall i, j :: 0 <= i < j < |fs| ==> FlagNames(fs)[i] != FlagNames(fs)[j]
    ensures forall x :: x in FlagNames(fs) ==> NameFlag(x).Some?
  {
    var names := FlagNames(fs);
    forall f ensures FlagName(f) in names <==> f in fs {
      if FlagName(f) in names {
        var i :| 0 <= i < |names| && names[i] == FlagName(f);
        FlagNameInjective(f, fs[i]);
      }
      if f in fs {
        var i :| 0 <= i < |fs| && fs[i] == f;
        assert names[i] == FlagName(f);
      }
    }
    forall i, j | 0 <= i < j < |fs| ensures names[i] != names[j] {
      FlagNameInjective(fs[i], fs[j]);
    }
    forall x | x in names ensures NameFlag(x).Some? {
      var i :| 0 <= i < |names| && names[i] == x;
      NameFlagOfFlagName(fs[i]);
    }
  }

  /** The presence set `_map_food_item` builds from a food's nutrient names:
      the optional flags are None when the food has no names at all. */
  function DecodeNutrients(names: seq<string>): MicronutrientPresence {
    MicronutrientPresence(
      "calcium" in names,
      "iron" in names,
      "folate" in names,
      "protein" in names,
      if names != [] then Some("vitamin_d" in names) else None,
      if names != [] then Some("dha" in names) else None,
      if names != [] then Some("fiber" in names) else None)
  }

  /** Decoding a food's name list: each flag is set iff its table name
      occurs; the optional flags are absent exactly for an empty list. */
  lemma DecodeNutrientsMeaning(names: seq<string>)
    ensures forall f :: FlagSet(DecodeNutrients(names), f) <==> FlagName(f) in names
    ensures var p := DecodeNutrients(names);
      (p.vitaminD.None? <==> names == []) && (p.omega3.None? <==> names == []) &&
      (p.fiber.None? <==> names == [])
  {
  }

  /** Encoding a presence set and decoding it back restores every flag and,
      exactly, the four required ones; the optional ones come back None only
      when no flag at all was set. */
  lemma DecodeEncode(p: MicronutrientPresence)
    ensures forall f :: FlagSet(DecodeNutrients(EncodeNutrients(p)), f) == FlagSet(p, f)
    ensures var q := DecodeNutrients(EncodeNutrients(p));
      q.calcium == p.calcium && q.iron == p.iron && q.folicAcid == p.folicAcid && q.protein == p.protein
    ensures var q := DecodeNutrients(EncodeNutrients(p));
      q.vitaminD.None? <==> forall f :: !FlagSet(p, f)
  {
    var names := EncodeNutrients(p);
    var q := DecodeNutrients(names);
    DecodeNutrientsMeaning(names);
    assert FlagSet(q, Calcium) == FlagSet(p, Calcium);
    assert FlagSet(q, Iron) == FlagSet(p, Iron);
    assert FlagSet(q, FolicAcid) == FlagSet(p, FolicAcid);
    assert FlagSet(q, Protein) == FlagSet(p, Protein);
    if names != [] {
      var f := NameFlag(names[0]).value;
      assert FlagName(f) in names;
    }
  }

  /** Decoding a name list and encoding it back keeps exactly the known
      names of the list, each once. */
  lemma EncodeDecode(names: seq<string>)
    ensures forall x :: x in EncodeNutrients(DecodeNutrients(names)) <==>
      x in names && NameFlag(x).Some?
  {
    var e := EncodeNutrients(DecodeNutrients(names));
    DecodeNutrientsMeaning(names);
    forall x ensures x in e <==> x in names && NameFlag(x).Some? {
      if x in e {
        var f := NameFlag(x).value;
        assert FlagName(f) in e;
      }
      if x in names && NameFlag(x).Some? {
        var f := NameFlag(x).value;
        assert FlagSet(DecodeNutrients(names), f);
      }
    }
  }

  /** A column as `row.get(key, default)` sees it: the key may be absent,
      present with SQL NULL, or present with a value. */
  datatype Cell<+T> = Absent | Null | Value(v: T)

  /** The `foods` columns of a joined row. */
  datatype FoodRow = FoodRow(
    id: string,
    name: string,
    portion: Option<string>,
    macroCategory: Option<string>,
    rainbowColor: Option<string>,
    phytonutrientFocus: Option<string>,
    isSafePregnancy: Cell<bool>,
    warningMessage: Option<string>,
    warningType: Option<string>,
    tags: Option<seq<string>>,
    description: Option<string>)

  /** `not row.get('is_safe_pregnancy', True)`: an absent column counts as
      safe, but a NULL one is falsy and so counts as unsafe. */
  function Unsafe(c: Cell<bool>): bool {
    match c
    case Absent => false
    case Null => true
    case Value(b) => !b
  }

  /** `_map_food_item`. */
  function MapFoodItem(row: FoodRow, nutrients: seq<string>): (item: FoodItem)
    ensures item.hasWarnings <==>
      row.isSafePregnancy == Null || row.isSafePregnancy == Value(false) ||
      (row.warningMessage.Some? && row.warningMessage.value != [])
    ensures forall f :: FlagSet(item.containsMicronutrients, f) <==> FlagName(f) in nutrients
    ensures item.containsMicronutrients == DecodeNutrients(nutrients)
    ensures var p := item.containsMicronutrients;
      (p.vitaminD.None? <==> nutrients == []) && (p.omega3.None? <==> nutrients == []) &&
      (p.fiber.None? <==> nutrients == [])
    ensures item.id == row.id && item.name == row.name
    ensures item.portion == row.portion && item.macroCategory == row.macroCategory
    ensures item.rainbowColor == row.rainbowColor && item.phytonutrientFocus == row.phytonutrientFocus
    ensures item.warningMessage == row.warningMessage && item.warningType == row.warningType
    ensures item.tags == row.tags && item.description == row.description
  {
    DecodeNutrientsMeaning(nutrients);
    FoodItem(
      row.id, row.name, row.portion, row.macroCategory, row.rainbowColor, row.phytonutrientFocus,
      DecodeNutrients(nutrients),
      Unsafe(row.isSafePregnancy) || (row.warningMessage.Some? && row.warningMessage.value != ""),
      row.warningMessage, row.warningType, row.tags, row.description)
  }
}
