/** The chat helpers of app/chat/services.py: the roll-up of today's meals
    that feeds the greeting prompt, the ordering of recent messages, and the
    hour buckets of the daily greeting. Query results are passed in as
    sequences, in the order the query returns them. */
module ChatServices {
  import opened Wrappers

  // ---------------------------------------------------------------------
  // Today's meals
  // ---------------------------------------------------------------------

  /** One joined row of today's meal/food query. A NULL colour is None. */
  datatype TodayRow = TodayRow(mealType: string, foodName: string, color: Option<string>)

  /** Python truthiness of the colour column: present and non-empty. */
  predicate HasColor(r: TodayRow) {
    r.color.Some? && r.color.value != ""
  }

  /** A meal type with its foods; the sequence of these is the insertion-
      ordered `foods_by_meal` dict. */
  type Group = (string, seq<string>)

  /** The roll-up `get_today_meals` returns. The empty answer has no
      `sample_foods` key, so that field is optional. */
  datatype TodayMeals = TodayMeals(
    hasMeals: bool,
    mealCount: nat,
    foodCount: nat,
    foodsByMeal: seq<Group>,
    uniqueColors: seq<string>,
    sampleFoods: Option<seq<string>>)

  function Keys(g: seq<Group>): (ks: seq<string>)
    ensures |ks| == |g| && forall j :: 0 <= j < |g| ==> ks[j] == g[j].0
  {
    seq(|g|, j requires 0 <= j < |g| => g[j].0)
  }

  predicate Distinct<T(==)>(s: seq<T>) {
    forall i, j :: 0 <= i < j < |s| ==> s[i] != s[j]
  }

  /** The position of meal type `m` in the dict, if it is there. */
  function Find(g: seq<Group>, m: string): (r: Option<nat>)
    ensures r.Some? ==> r.value < |g| && g[r.value].0 == m
    ensures r.None? ==> forall j :: 0 <= j < |g| ==> g[j].0 != m
  {
    if |g| == 0 then None
    else if g[|g| - 1].0 == m then Some(|g| - 1)
    else Find(g[..|g| - 1], m)
  }

  /** One turn of the loop: append the food to its meal type's list, making
      the list first when the type is new. */
  function AddFood(g: seq<Group>, m: string, f: string): (g': seq<Group>)
  {
    match Find(g, m)
    case Some(j) => g[j := (m, g[j].1 + [f])]
    case None => g + [(m, [f])]
  }

  /** The dict after the loop has seen `rows`. */
  function GroupFoods(rows: seq<TodayRow>): seq<Group> {
    if |rows| == 0 then []
    else
      var r := rows[|rows| - 1];
      AddFood(GroupFoods(rows[..|rows| - 1]), r.mealType, r.foodName)
  }

  /** The foods of meal type `m`, in row order: the reference the dict's
      lists are compared with. */
  function FoodsOf(rows: seq<TodayRow>, m: string): (fs: seq<string>)
    ensures |fs| <= |rows|
  {
    if |rows| == 0 then []
    else
      var r := rows[|rows| - 1];
      FoodsOf(rows[..|rows| - 1], m) + (if r.mealType == m then [r.foodName] else [])
  }

  /** All food names, in row order (`all_foods`). */
  function AllFoods(rows: seq<TodayRow>): (fs: seq<string>)
    ensures |fs| == |rows| && forall i :: 0 <= i < |rows| ==> fs[i] == rows[i].foodName
  {
    seq(|rows|, i requires 0 <= i < |rows| => rows[i].foodName)
  }

  /** Some row is of meal type `m`. */
  predicate HasType(rows: seq<TodayRow>, m: string) {
    exists i :: 0 <= i < |rows| && rows[i].mealType == m
  }

  /** One loop turn keeps the keys when `m` is already one and adds `m` last
      otherwise; it appends `f` to `m`'s list and leaves the other lists. */
  lemma AddFoodMeaning(g: seq<Group>, m: string, f: string)
    requires Distinct(Keys(g))
    ensures m in Keys(g) ==> Keys(AddFood(g, m, f)) == Keys(g)
    ensures m !in Keys(g) ==> Keys(AddFood(g, m, f)) == Keys(g) + [m]
    ensures forall j :: 0 <= j < |g| && g[j].0 != m ==> AddFood(g, m, f)[j] == g[j]
    ensures forall j :: 0 <= j < |g| && g[j].0 == m ==> AddFood(g, m, f)[j].1 == g[j].1 + [f]
    ensures m !in Keys(g) ==> AddFood(g, m, f)[|g|] == (m, [f])
  {
    match Find(g, m)
    case Some(j) =>
      assert Keys(g)[j] == m;
      forall k | 0 <= k < |g| && g[k].0 == m ensures k == j {
        assert Keys(g)[k] == Keys(g)[j];
      }
    case None =>
  }

  /** A meal type no row has gets no foods. */
  lemma {:induction false} FoodsOfAbsent(rows: seq<TodayRow>, m: string)
    requires !HasType(rows, m)
    ensures FoodsOf(rows, m) == []
    decreases |rows|
  {
    if |rows| > 0 {
      FoodsOfAbsent(rows[..|rows| - 1], m);
    }
  }

  /** A type occurs in the rows iff it occurs before the last row or is the
      last row's. */
  lemma HasTypeSnoc(rows: seq<TodayRow>, m: string)
    requires |rows| > 0
    ensures HasType(rows, m) <==> HasType(rows[..|rows| - 1], m) || rows[|rows| - 1].mealType == m
  {
    var pre := rows[..|rows| - 1];
    if HasType(rows, m) {
      var i :| 0 <= i < |rows| && rows[i].mealType == m;
      if i < |pre| { assert pre[i] == rows[i]; }
    }
    if HasType(pre, m) {
      var i :| 0 <= i < |pre| && pre[i].mealType == m;
      assert rows[i] == pre[i];
    }
  }

  /** The dict's keys are distinct and are exactly the meal types of the
      rows. */
  lemma {:induction false} GroupKeysMeaning(rows: seq<TodayRow>)
    ensures Distinct(Keys(GroupFoods(rows)))
    ensures forall m :: m in Keys(GroupFoods(rows)) <==> HasType(rows, m)
    decreases |rows|
  {
    if |rows| > 0 {
      var pre := rows[..|rows| - 1];
      var r := rows[|rows| - 1];
      GroupKeysMeaning(pre);
      AddFoodMeaning(GroupFoods(pre), r.mealType, r.foodName);
      forall m ensures HasType(rows, m) <==> HasType(pre, m) || m == r.mealType {
        HasTypeSnoc(rows, m);
      }
    }
  }

  /** Each key's list is that meal type's foods in row order. */
  lemma {:induction false} GroupListsMeaning(rows: seq<TodayRow>)
    ensures forall j :: 0 <= j < |GroupFoods(rows)| ==>
      GroupFoods(rows)[j].1 == FoodsOf(rows, GroupFoods(rows)[j].0)
    decreases |rows|
  {
    if |rows| > 0 {
      var pre := rows[..|rows| - 1];
      var r := rows[|rows| - 1];
      GroupListsMeaning(pre);
      GroupKeysMeaning(pre);
      var g := GroupFoods(pre);
      var g' := GroupFoods(rows);
      AddFoodMeaning(g, r.mealType, r.foodName);
      var added := [r.foodName];
      if r.mealType !in Keys(g) {
        FoodsOfAbsent(pre, r.mealType);
        assert Keys(g') == Keys(g) + [r.mealType];
      }
      forall j | 0 <= j < |g'| ensures g'[j].1 == FoodsOf(rows, g'[j].0) {
        if j < |g| {
          var m := g[j].0;
          assert Keys(g)[j] == m;
          assert FoodsOf(rows, m) == FoodsOf(pre, m) + (if r.mealType == m then added else []);
          if m == r.mealType {
            assert Keys(g')[j] == m;
          }
        } else {
          assert g'[j] == (r.mealType, added);
          assert FoodsOf(rows, r.mealType) == FoodsOf(pre, r.mealType) + added;
        }
      }
    }
  }

  /** The dict's keys are distinct and are exactly the meal types of the
      rows, and each key's list is that type's foods in row order. */
  lemma GroupFoodsMeaning(rows: seq<TodayRow>)
    ensures Distinct(Keys(GroupFoods(rows)))
    ensures forall m :: m in Keys(GroupFoods(rows)) <==> HasType(rows, m)
    ensures forall j :: 0 <= j < |GroupFoods(rows)| ==>
      GroupFoods(rows)[j].1 == FoodsOf(rows, GroupFoods(rows)[j].0)
  {
    GroupKeysMeaning(rows);
    GroupListsMeaning(rows);
  }

  /** The number of foods over all lists. */
  function TotalFoods(g: seq<Group>): nat {
    if |g| == 0 then 0 else TotalFoods(g[..|g| - 1]) + |g[|g| - 1].1|
  }

  /** Replacing one list changes the total by the difference in lengths. */
  lemma {:induction false} TotalFoodsUpdate(g: seq<Group>, j: nat, x: Group)
    requires j < |g|
    ensures TotalFoods(g[j := x]) == TotalFoods(g) - |g[j].1| + |x.1|
    decreases |g|
  {
    var n := |g| - 1;
    assert g[j := x][..n] == if j == n then g[..n] else g[..n][j := x];
    if j < n {
      TotalFoodsUpdate(g[..n], j, x);
    }
  }

  /** Every food lands in exactly one list: the lists hold as many foods as
      there are rows (and, by `GroupFoodsMeaning`, each row's food is in the
      list of its own type). */
  lemma {:induction false} GroupFoodsCount(rows: seq<TodayRow>)
    ensures TotalFoods(GroupFoods(rows)) == |rows|
    decreases |rows|
  {
    if |rows| > 0 {
      var pre := rows[..|rows| - 1];
      var r := rows[|rows| - 1];
      GroupFoodsCount(pre);
      var g := GroupFoods(pre);
      match Find(g, r.mealType)
      case Some(j) =>
        TotalFoodsUpdate(g, j, (r.mealType, g[j].1 + [r.foodName]));
      case None =>
        assert (g + [(r.mealType, [r.foodName])])[..|g|] == g;
    }
  }

  /** A set has as many elements as a duplicate-free sequence listing it. */
  lemma {:induction false} DistinctSetCard<T>(s: seq<T>)
    requires Distinct(s)
    ensures |set x | x in s| == |s|
    decreases |s|
  {
    if |s| > 0 {
      var n := |s| - 1;
      var pre := s[..n];
      assert Distinct(pre);
      DistinctSetCard(pre);
      assert (set x | x in s) == (set x | x in pre) + {s[n]};
      assert s[n] !in (set x | x in pre);
    }
  }

  // ---------------------------------------------------------------------
  // Sorted colours
  // ---------------------------------------------------------------------

  /** Python's string order: code point by code point, a proper prefix
      first. */
  predicate StrLess(a: string, b: string)
    decreases |a|
  {
    if |a| == 0 then |b| > 0
    else |b| > 0 && (a[0] < b[0] || (a[0] == b[0] && StrLess(a[1..], b[1..])))
  }

  lemma {:induction false} StrLessIrreflexive(a: string)
    ensures !StrLess(a, a)
    decreases |a|
  {
    if |a| > 0 {
      StrLessIrreflexive(a[1..]);
    }
  }

  lemma {:induction false} StrLessTransitive(a: string, b: string, c: string)
    requires StrLess(a, b) && StrLess(b, c)
    ensures StrLess(a, c)
    decreases |a|
  {
    if |a| > 0 && a[0] == b[0] && b[0] == c[0] {
      StrLessTransitive(a[1..], b[1..], c[1..]);
    }
  }

  lemma {:induction false} StrLessTotal(a: string, b: string)
    requires a != b
    ensures StrLess(a, b) || StrLess(b, a)
    decreases |a|
  {
    if |a| > 0 && |b| > 0 && a[0] == b[0] {
      assert a == [a[0]] + a[1..] && b == [b[0]] + b[1..];
      StrLessTotal(a[1..], b[1..]);
    }
  }

  /** Strictly increasing, hence also free of duplicates. */
  predicate Sorted(cs: seq<string>) {
    forall i, j :: 0 <= i < j < |cs| ==> StrLess(cs[i], cs[j])
  }

  lemma SortedDistinct(cs: seq<string>)
    requires Sorted(cs)
    ensures Distinct(cs)
  {
    forall i, j | 0 <= i < j < |cs| ensures cs[i] != cs[j] {
      StrLessIrreflexive(cs[i]);
    }
  }

  /** Add one colour to a sorted list, unless it is there already. */
  function InsertColor(cs: seq<string>, c: string): seq<string>
  {
    if |cs| == 0 then [c]
    else if c == cs[0] then cs
    else if StrLess(c, cs[0]) then [c] + cs
    else [cs[0]] + InsertColor(cs[1..], c)
  }

  lemma {:induction false} InsertColorMeaning(cs: seq<string>, c: string)
    requires Sorted(cs)
    ensures Sorted(InsertColor(cs, c))
    ensures forall x :: x in InsertColor(cs, c) <==> x in cs || x == c
    decreases |cs|
  {
    if |cs| > 0 && c != cs[0] {
      if StrLess(c, cs[0]) {
        var r := [c] + cs;
        forall i, j | 0 <= i < j < |r| ensures StrLess(r[i], r[j]) {
          if i == 0 && j > 1 {
            StrLessTransitive(c, cs[0], cs[j - 1]);
          }
        }
      } else {
        StrLessTotal(c, cs[0]);
        InsertColorMeaning(cs[1..], c);
        var t := InsertColor(cs[1..], c);
        var r := [cs[0]] + t;
        forall i, j | 0 <= i < j < |r| ensures StrLess(r[i], r[j]) {
          if i == 0 {
            assert r[j] in t;
          }
        }
        assert cs == [cs[0]] + cs[1..];
      }
    }
  }

  /** Some row carries colour `c`. */
  predicate ColoredBy(rows: seq<TodayRow>, c: string) {
    exists i :: 0 <= i < |rows| && HasColor(rows[i]) && rows[i].color.value == c
  }

  /** The colour set after the loop has seen `rows`, kept sorted. */
  function Colors(rows: seq<TodayRow>): seq<string> {
    if |rows| == 0 then []
    else
      var r := rows[|rows| - 1];
      var cs := Colors(rows[..|rows| - 1]);
      if HasColor(r) then InsertColor(cs, r.color.value) else cs
  }

  lemma ColoredBySnoc(rows: seq<TodayRow>, c: string)
    requires |rows| > 0
    ensures var r := rows[|rows| - 1];
      ColoredBy(rows, c) <==> ColoredBy(rows[..|rows| - 1], c) || (HasColor(r) && r.color.value == c)
  {
    var pre := rows[..|rows| - 1];
    if ColoredBy(rows, c) {
      var i :| 0 <= i < |rows| && HasColor(rows[i]) && rows[i].color.value == c;
      if i < |pre| { assert pre[i] == rows[i]; }
    }
    if ColoredBy(pre, c) {
      var i :| 0 <= i < |pre| && HasColor(pre[i]) && pre[i].color.value == c;
      assert rows[i] == pre[i];
    }
  }

  /** `unique_colors` is strictly sorted and holds exactly the non-empty
      colours of the rows; no empty colour gets in. */
  lemma {:induction false} ColorsMeaning(rows: seq<TodayRow>)
    ensures Sorted(Colors(rows))
    ensures forall c :: c in Colors(rows) <==> ColoredBy(rows, c)
    ensures "" !in Colors(rows)
    decreases |rows|
  {
    if |rows| > 0 {
      var pre := rows[..|rows| - 1];
      var r := rows[|rows| - 1];
      ColorsMeaning(pre);
      if HasColor(r) {
        InsertColorMeaning(Colors(pre), r.color.value);
      }
      forall c ensures c in Colors(rows) <==> ColoredBy(rows, c) {
        ColoredBySnoc(rows, c);
      }
    }
  }

  /** The tail of a sorted list is the list without its head. */
  lemma SortedTail(a: seq<string>)
    requires Sorted(a) && |a| > 0
    ensures forall x :: x in a[1..] <==> x in a && x != a[0]
  {
    forall x ensures x in a[1..] <==> x in a && x != a[0] {
      if x in a[1..] {
        var i :| 0 <= i < |a| - 1 && a[1..][i] == x;
        assert a[i + 1] == x;
        StrLessIrreflexive(a[0]);
      }
      if x in a && x != a[0] {
        var i :| 0 <= i < |a| && a[i] == x;
        assert a[1..][i - 1] == x;
      }
    }
  }

  /** The head of a sorted list comes before every other member. */
  lemma HeadIsLeast(a: seq<string>, x: string)
    requires Sorted(a) && x in a && |a| > 0 && x != a[0]
    ensures StrLess(a[0], x)
  {
    var i :| 0 <= i < |a| && a[i] == x;
  }

  lemma HeadIsMember(s: seq<string>)
    ensures |s| > 0 ==> s[0] in s
  {
  }

  /** Two sorted lists of the same members start alike. */
  lemma SortedHeads(a: seq<string>, b: seq<string>)
    requires Sorted(a) && Sorted(b) && |a| > 0 && |b| > 0
    requires forall x :: x in a <==> x in b
    ensures a[0] == b[0]
  {
    if a[0] != b[0] {
      assert a[0] in a && b[0] in b;
      HeadIsLeast(a, b[0]);
      HeadIsLeast(b, a[0]);
      StrLessTransitive(a[0], b[0], a[0]);
      StrLessIrreflexive(a[0]);
    }
  }

  /** There is only one strictly sorted list of a given set, so the list
      built by insertion is `sorted(set)`. */
  lemma {:induction false} SortedUnique(a: seq<string>, b: seq<string>)
    requires Sorted(a) && Sorted(b)
    requires forall x :: x in a <==> x in b
    ensures a == b
    decreases |a|
  {
    if |a| > 0 && |b| > 0 {
      SortedHeads(a, b);
      SortedTail(a);
      SortedTail(b);
      SortedUnique(a[1..], b[1..]);
      assert a == [a[0]] + a[1..] && b == [b[0]] + b[1..];
    } else {
      HeadIsMember(a);
      HeadIsMember(b);
    }
  }

  // ---------------------------------------------------------------------
  // get_today_meals
  // ---------------------------------------------------------------------

  function Min(a: int, b: int): int {
    if a < b then a else b
  }

  /** `get_today_meals` on the rows of today's query, in the query's order. */
  method GetTodayMeals(rows: seq<TodayRow>) returns (r: TodayMeals)
    ensures |rows| == 0 <==> !r.hasMeals
    ensures |rows| == 0 ==> r == TodayMeals(false, 0, 0, [], [], None)
    ensures |rows| > 0 ==>
      && r.foodCount == |rows|
      && r.mealCount == |r.foodsByMeal|
      && r.foodsByMeal == GroupFoods(rows)
      && r.uniqueColors == Colors(rows)
      && r.sampleFoods == Some(AllFoods(rows)[..Min(3, |rows|)])
  {
    if |rows| == 0 {
      return TodayMeals(false, 0, 0, [], [], None);
    }
    var groups: seq<Group> := [];
    var all: seq<string> := [];
    var colors: seq<string> := [];
    var i := 0;
    while i < |rows|
      invariant 0 <= i <= |rows|
      invariant groups == GroupFoods(rows[..i])
      invariant all == AllFoods(rows[..i])
      invariant colors == Colors(rows[..i])
    {
      var row := rows[i];
      assert rows[..i + 1][..i] == rows[..i];
      groups := AddFood(groups, row.mealType, row.foodName);
      all := all + [row.foodName];
      if HasColor(row) {
        colors := InsertColor(colors, row.color.value);
      }
      i := i + 1;
    }
    assert rows[..|rows|] == rows;
    return TodayMeals(true, |groups|, |all|, groups, colors, Some(all[..Min(3, |all|)]));
  }

  /** `meal_count` is the number of distinct meal types among the rows. */
  lemma MealCountIsDistinctTypes(rows: seq<TodayRow>)
    ensures |GroupFoods(rows)| == |set i | 0 <= i < |rows| :: rows[i].mealType|
  {
    GroupFoodsMeaning(rows);
    var ks := Keys(GroupFoods(rows));
    DistinctSetCard(ks);
    assert (set x | x in ks) == (set i | 0 <= i < |rows| :: rows[i].mealType);
  }

  /** `unique_colors` is `sorted(set(colours))`: any strictly sorted list of
      exactly the rows' non-empty colours is equal to it. */
  lemma ColorsAreSortedSet(rows: seq<TodayRow>, cs: seq<string>)
    requires Sorted(cs) && forall c :: c in cs <==> ColoredBy(rows, c)
    ensures Colors(rows) == cs
  {
    ColorsMeaning(rows);
    SortedUnique(Colors(rows), cs);
  }

  /** The samples are the first three foods in row order, or all of them
      when there are fewer. */
  lemma SampleFoodsMeaning(rows: seq<TodayRow>)
    ensures |AllFoods(rows)[..Min(3, |rows|)]| == Min(3, |rows|) <= 3
    ensures forall i :: 0 <= i < Min(3, |rows|) ==> AllFoods(rows)[..Min(3, |rows|)][i] == rows[i].foodName
  {
  }

  // ---------------------------------------------------------------------
  // get_recent_messages
  // ---------------------------------------------------------------------

  /** A stored chat message; the creation time is a number that orders
      messages. */
  datatype Message = Message(id: string, sessionId: string, role: string, content: string, createdAt: int)

  function Reverse<T>(s: seq<T>): (r: seq<T>)
    ensures |r| == |s|
    ensures forall i :: 0 <= i < |s| ==> r[i] == s[|s| - 1 - i]
  {
    if |s| == 0 then [] else [s[|s| - 1]] + Reverse(s[..|s| - 1])
  }

  /** `get_recent_messages` on the query's rows. Without a since-date the
      query returns newest first and the rows are reversed; with one it
      returns oldest first and they are kept. */
  function RecentMessages(rows: seq<Message>, sinceDate: Option<string>): (ms: seq<Message>)
    ensures |ms| == |rows| && multiset(ms) == multiset(rows)
    ensures sinceDate.Some? && sinceDate.value != "" ==> ms == rows
    ensures !(sinceDate.Some? && sinceDate.value != "") ==> ms == Reverse(rows)
  {
    if sinceDate.Some? && sinceDate.value != "" then rows
    else
      var r := Reverse(rows);
      assert multiset(r) == multiset(rows) by { ReversePermutes(rows); }
      r
  }

  lemma {:induction false} ReversePermutes<T>(s: seq<T>)
    ensures multiset(Reverse(s)) == multiset(s)
    decreases |s|
  {
    if |s| > 0 {
      ReversePermutes(s[..|s| - 1]);
      assert s == s[..|s| - 1] + [s[|s| - 1]];
    }
  }

  predicate NewestFirst(ms: seq<Message>) {
    forall i, j :: 0 <= i < j < |ms| ==> ms[i].createdAt >= ms[j].createdAt
  }

  predicate OldestFirst(ms: seq<Message>) {
    forall i, j :: 0 <= i < j < |ms| ==> ms[i].createdAt <= ms[j].createdAt
  }

  /** Either way the caller gets the messages in chronological order, given
      the order each query promises. */
  lemma RecentMessagesChronological(rows: seq<Message>, sinceDate: Option<string>)
    requires sinceDate.Some? && sinceDate.value != "" ==> OldestFirst(rows)
    requires !(sinceDate.Some? && sinceDate.value != "") ==> NewestFirst(rows)
    ensures OldestFirst(RecentMessages(rows, sinceDate))
  {
    var ms := RecentMessages(rows, sinceDate);
    if !(sinceDate.Some? && sinceDate.value != "") {
      forall i, j | 0 <= i < j < |ms| ensures ms[i].createdAt <= ms[j].createdAt {
        assert ms[i] == rows[|rows| - 1 - i] && ms[j] == rows[|rows| - 1 - j];
      }
    }
  }

  // ---------------------------------------------------------------------
  // Hour buckets of the greeting
  // ---------------------------------------------------------------------

  const Planning := "planning their meals for the day ahead"
  const Tracking := "tracking meals they've eaten"

  /** The greeting's framing: before 6 a.m. the user is planning the day's
      meals, afterwards tracking eaten ones. */
  function GreetingContext(hour: int): (s: string)
    ensures s == Planning <==> hour < 6
    ensures s == Tracking <==> hour >= 6
  {
    if hour < 6 then Planning else Tracking
  }

  /** The greeting's time of day for a clock hour. */
  function TimeOfDay(hour: int): (s: string)
    ensures s == "morning" <==> hour < 12
    ensures s == "afternoon" <==> 12 <= hour < 18
    ensures s == "evening" <==> 18 <= hour
  {
    if hour < 12 then "morning" else if hour < 18 then "afternoon" else "evening"
  }

  /** The planning hours all fall in the morning bucket. */
  lemma PlanningIsMorning(hour: int)
    requires GreetingContext(hour) == Planning
    ensures TimeOfDay(hour) == "morning"
  {
  }
}
