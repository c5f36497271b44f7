/** The meal planner's records (app/meals/models.py): food items with their
    micronutrient flags, meals, the five meal slots of a day, and the derived
    daily summary. */
module MealModels {
  import opened Wrappers
  import opened Calendar

  /** Which of seven micronutrients a food (or a whole meal) provides. The
      first four are plain booleans defaulting to false; the last three are
      optional and default to None. */
  datatype MicronutrientPresence = MicronutrientPresence(
    calcium: bool,
    iron: bool,
    folicAcid: bool,
    protein: bool,
    vitaminD: Option<bool>,
    omega3: Option<bool>,
    fiber: Option<bool>)

  /** `MicronutrientPresence()` with every field at its default. */
  const DefaultPresence: MicronutrientPresence :=
    MicronutrientPresence(false, false, false, false, None, None, None)

  /** The seven flags, named so that properties can quantify over them. */
  datatype Flag = Calcium | Iron | FolicAcid | Protein | VitaminD | Omega3 | Fiber

  /** Python truthiness of one flag: an optional flag counts only when it is `True`. */
  function FlagSet(p: MicronutrientPresence, f: Flag): bool {
    match f
    case Calcium => p.calcium
    case Iron => p.iron
    case FolicAcid => p.folicAcid
    case Protein => p.protein
    case VitaminD => p.vitaminD == Some(true)
    case Omega3 => p.omega3 == Some(true)
    case Fiber => p.fiber == Some(true)
  }

  datatype FoodItem = FoodItem(
    id: string,
    name: string,
    portion: Option<string>,
    macroCategory: Option<string>,
    rainbowColor: Option<string>,
    phytonutrientFocus: Option<string>,
    containsMicronutrients: MicronutrientPresence,
    hasWarnings: bool,
    warningMessage: Option<string>,
    warningType: Option<string>,
    tags: Option<seq<string>>,
    description: Option<string>)

  datatype Meal = Meal(
    id: string,
    mealType: string,
    items: seq<FoodItem>,
    containsMicronutrients: MicronutrientPresence,
    notes: Option<string>)

  /** The five fixed meal slots of a day, in display order. */
  datatype Slot = Breakfast | Snack1 | Lunch | Snack2 | Dinner {

    /** The attribute name the source uses for the slot (`'snack1'`, ...). */
    function Key(): string {
      match this
      case Breakfast => "breakfast"
      case Snack1 => "snack1"
      case Lunch => "lunch"
      case Snack2 => "snack2"
      case Dinner => "dinner"
    }

    /** The meal-type label stored with a meal row (`'Snack 1'`, ...). */
    function Label(): string {
      match this
      case Breakfast => "Breakfast"
      case Snack1 => "Snack 1"
      case Lunch => "Lunch"
      case Snack2 => "Snack 2"
      case Dinner => "Dinner"
    }

    /** Position of the slot in `AllSlots`. */
    function Index(): nat {
      match this
      case Breakfast => 0
      case Snack1 => 1
      case Lunch => 2
      case Snack2 => 3
      case Dinner => 4
    }
  }

  /** The order in which the summary visits the slots. */
  const AllSlots: seq<Slot> := [Breakfast, Snack1, Lunch, Snack2, Dinner]

  /** A day's meals: one optional meal per slot, all absent by default. */
  datatype DayMeals = DayMeals(
    breakfast: Option<Meal>,
    snack1: Option<Meal>,
    lunch: Option<Meal>,
    snack2: Option<Meal>,
    dinner: Option<Meal>)
  {
    function Get(s: Slot): Option<Meal> {
      match s
      case Breakfast => breakfast
      case Snack1 => snack1
      case Lunch => lunch
      case Snack2 => snack2
      case Dinner => dinner
    }

    function Set(s: Slot, m: Option<Meal>): (r: DayMeals)
      ensures r.Get(s) == m
      ensures forall t :: t != s ==> r.Get(t) == Get(t)
    {
      match s
      case Breakfast => this.(breakfast := m)
      case Snack1 => this.(snack1 := m)
      case Lunch => this.(lunch := m)
      case Snack2 => this.(snack2 := m)
      case Dinner => this.(dinner := m)
    }
  }

  /** `DayMeals()`: every slot empty. */
  const NoMeals: DayMeals := DayMeals(None, None, None, None, None)

  /** The three levels of `NutrientStatus.status`. */
  datatype Status = Good | Moderate | Missing {
    function Label(): string {
      match this
      case Good => "good"
      case Moderate => "moderate"
      case Missing => "missing"
    }
  }

  datatype NutrientStatus = NutrientStatus(covered: bool, mealsCovered: seq<Slot>, status: Status)

  /** The four nutrients the daily summary tracks, in summary order. */
  datatype Nutrient = CalciumN | IronN | FolicAcidN | ProteinN {

    /** The flag of `MicronutrientPresence` that provides this nutrient. */
    function AsFlag(): Flag {
      match this
      case CalciumN => Calcium
      case IronN => Iron
      case FolicAcidN => FolicAcid
      case ProteinN => Protein
    }

    /** The name listed in `missingNutrients`. */
    function DisplayName(): string {
      match this
      case CalciumN => "Calcium"
      case IronN => "Iron"
      case FolicAcidN => "Folic Acid"
      case ProteinN => "Protein"
    }

    function Index(): nat {
      match this
      case CalciumN => 0
      case IronN => 1
      case FolicAcidN => 2
      case ProteinN => 3
    }
  }

  /** The day-level summary. `missingNutrients` lists the uncovered
      nutrients; the source lists their display names. */
  datatype DailySummary = DailySummary(
    calcium: NutrientStatus,
    iron: NutrientStatus,
    folicAcid: NutrientStatus,
    protein: NutrientStatus,
    hasWarnings: bool,
    missingNutrients: seq<Nutrient>)
  {
    function Of(n: Nutrient): NutrientStatus {
      match n
      case CalciumN => calcium
      case IronN => iron
      case FolicAcidN => folicAcid
      case ProteinN => protein
    }
  }

  /** The placeholder summary a day starts with before it is computed. */
  const PlaceholderSummary: DailySummary :=
    var none := NutrientStatus(false, [], Missing);
    DailySummary(none, none, none, none, false, [])

  /** The defaults hold nothing: the default presence set sets no flag, the
      default day has no meal in any slot, and the placeholder summary marks
      every nutrient missing and uncovered. */
  lemma DefaultsAreEmpty()
    ensures forall f :: !FlagSet(DefaultPresence, f)
    ensures forall s :: NoMeals.Get(s).None?
    ensures forall n :: PlaceholderSummary.Of(n) == NutrientStatus(false, [], Missing)
  {
  }

  /** One calendar day of the planner. The source's `id` and `date` are both
      the day's date string; the model keeps the date once. */
  datatype DayData = DayData(
    date: Date,
    dayOfWeek: string,
    meals: DayMeals,
    dailySummary: DailySummary)
}
