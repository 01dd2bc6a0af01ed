/**
 * The calorie table: calories per serving and a category for each food the
 * detector knows, with sentinel answers for every other label, plus the two
 * folds over a list of labels (a calorie total and a per-category summary).
 */
module CalorieMapper {
  import opened Wrappers
  import opened AssocList
  import Tally
  import Config

  const CalorieMap: map<string, int> := map[
    "Apple" := 95, "Orange" := 85, "Banana" := 105, "Strawberry" := 50,
    "Cucumber" := 16, "Pizza" := 285, "Watermelon" := 46, "Bread" := 80,
    "Broccoli" := 25, "Carrot" := 25
  ]

  const FoodCategories: map<string, string> := map[
    "Apple" := "Fruit", "Orange" := "Fruit", "Banana" := "Fruit",
    "Strawberry" := "Fruit", "Cucumber" := "Vegetable", "Pizza" := "Fast Food",
    "Watermelon" := "Fruit", "Bread" := "Grain", "Broccoli" := "Vegetable",
    "Carrot" := "Vegetable"
  ]

  /** The largest value in the calorie table (a slice of pizza). */
  const MaxCalories := 285

  const UnknownCategory := "Unknown"

  /** Both tables describe exactly the foods the detector can name. */
  lemma TablesCoverFoodClasses()
    ensures CalorieMap.Keys == FoodCategories.Keys
    ensures forall f :: f in CalorieMap <==> f in Config.FoodClasses
  {
  }

  /** Calories for a label: the table value for a known food, 0 for anything else. */
  function GetCalories(food: string): (c: int)
    ensures food in CalorieMap ==> c == CalorieMap[food]
    ensures 0 <= c <= MaxCalories
    ensures c > 0 <==> food in Config.FoodClasses
  {
    if food in CalorieMap then CalorieMap[food] else 0
  }

  /** Category for a label: the table value for a known food, "Unknown" for anything else. */
  function GetCategory(food: string): (c: string)
    ensures food in FoodCategories ==> c == FoodCategories[food]
    ensures c == UnknownCategory <==> food !in Config.FoodClasses
  {
    if food in FoodCategories then FoodCategories[food] else UnknownCategory
  }

  /** A copy of the calorie table. */
  function GetAllFoods(): (m: map<string, int>)
    ensures forall f :: f in m <==> f in Config.FoodClasses
    ensures forall f :: f in m ==> m[f] == GetCalories(f) > 0
  {
    CalorieMap
  }

  /** The calories of a list of labels, summed left to right. */
  function CalculateTotalCalories(foods: seq<string>): (total: int)
    ensures 0 <= total <= MaxCalories * |foods|
  {
    if foods == [] then 0
    else CalculateTotalCalories(foods[..|foods| - 1]) + GetCalories(foods[|foods| - 1])
  }

  /** The total is additive over concatenation. */
  lemma {:induction false} TotalCaloriesAppend(xs: seq<string>, ys: seq<string>)
    ensures CalculateTotalCalories(xs + ys) == CalculateTotalCalories(xs) + CalculateTotalCalories(ys)
    decreases |ys|
  {
    if ys == [] {
      assert xs + ys == xs;
    } else {
      var zs := ys[..|ys| - 1];
      assert (xs + ys)[..|xs + ys| - 1] == xs + zs;
      TotalCaloriesAppend(xs, zs);
    }
  }

  /** One category's share of a nutritional summary. */
  datatype CategoryTotals = CategoryTotals(count: nat, calories: int, foods: seq<string>)

  const NoTotals := CategoryTotals(0, 0, [])

  function CountOf(t: CategoryTotals): int { t.count }

  function CaloriesOf(t: CategoryTotals): int { t.calories }

  /** The category of every label, position by position. */
  function Categories(foods: seq<string>): (cs: seq<string>)
    ensures |cs| == |foods|
    ensures forall i :: 0 <= i < |foods| ==> cs[i] == GetCategory(foods[i])
  {
    if foods == [] then []
    else
      var cs := Categories(foods[..|foods| - 1]) + [GetCategory(foods[|foods| - 1])];
      assert forall i :: 0 <= i < |foods| - 1 ==> foods[i] == foods[..|foods| - 1][i];
      cs
  }

  /** The labels of `foods` whose category is `category`, in input order. */
  function InCategory(foods: seq<string>, category: string): seq<string> {
    if foods == [] then []
    else
      var last := foods[|foods| - 1];
      InCategory(foods[..|foods| - 1], category) + (if GetCategory(last) == category then [last] else [])
  }

  /** One more label of a category, added to that category's totals. */
  function AddTo(t: CategoryTotals, food: string): CategoryTotals {
    CategoryTotals(t.count + 1, t.calories + GetCalories(food), t.foods + [food])
  }

  /** Folds one more label into a summary, as one iteration of the source's loop does. */
  function AddFood(summary: seq<(string, CategoryTotals)>, food: string): seq<(string, CategoryTotals)> {
    var category := GetCategory(food);
    Put(summary, category, AddTo(Get(summary, category).GetOr(NoTotals), food))
  }

  /** Groups labels by category, folding the labels in from left to right. */
  function GetNutritionalSummary(foods: seq<string>): seq<(string, CategoryTotals)> {
    if foods == [] then [] else AddFood(GetNutritionalSummary(foods[..|foods| - 1]), foods[|foods| - 1])
  }

  /** The summary lists the labels' categories in order of first occurrence. */
  lemma {:induction false} NutritionalSummaryKeys(foods: seq<string>)
    ensures Keys(GetNutritionalSummary(foods)) == Tally.FirstSeen(Categories(foods))
  {
    if foods != [] {
      var pre := foods[..|foods| - 1];
      var f := foods[|foods| - 1];
      var s := GetNutritionalSummary(pre);
      var c := GetCategory(f);
      var t := AddTo(Get(s, c).GetOr(NoTotals), f);
      NutritionalSummaryKeys(pre);
      assert GetNutritionalSummary(foods) == Put(s, c, t);
      KeysPut(s, c, t);
      Tally.FirstSeenSnoc(Categories(pre), c);
    }
  }

  /** No category is listed twice. */
  lemma {:induction false} NutritionalSummaryDistinct(foods: seq<string>)
    ensures DistinctKeys(GetNutritionalSummary(foods))
  {
    if foods != [] {
      var pre := foods[..|foods| - 1];
      var f := foods[|foods| - 1];
      var s := GetNutritionalSummary(pre);
      var c := GetCategory(f);
      NutritionalSummaryDistinct(pre);
      PutKeepsDistinct(s, c, AddTo(Get(s, c).GetOr(NoTotals), f));
    }
  }

  /** What the summary should hold for one category: the matching labels, their number and calories. */
  function ExpectedTotals(foods: seq<string>, category: string): CategoryTotals {
    var matching := InCategory(foods, category);
    CategoryTotals(|matching|, CalculateTotalCalories(matching), matching)
  }

  /** One more label extends exactly its own category's expected totals. */
  lemma ExpectedTotalsStep(foods: seq<string>, c: string)
    requires foods != []
    ensures var pre, f := foods[..|foods| - 1], foods[|foods| - 1];
      && (InCategory(foods, c) == [] <==> InCategory(pre, c) == [] && GetCategory(f) != c)
      && ExpectedTotals(foods, c) ==
           if GetCategory(f) == c then AddTo(ExpectedTotals(pre, c), f) else ExpectedTotals(pre, c)
  {
    var pre, f := foods[..|foods| - 1], foods[|foods| - 1];
    var m := InCategory(pre, c);
    if GetCategory(f) == c {
      assert InCategory(foods, c) == m + [f];
      assert (m + [f])[..|m + [f]| - 1] == m;
      assert CalculateTotalCalories(m + [f]) == CalculateTotalCalories(m) + GetCalories(f);
      assert |m + [f]| > 0;
    } else {
      assert InCategory(foods, c) == m + [];
      assert m + [] == m;
    }
  }

  /** The summary is a group-by: a category is present exactly when some label has it,
      and then its entry lists those labels in input order with their count and calories. */
  lemma {:induction false} NutritionalSummaryGroups(foods: seq<string>, c: string)
    ensures Get(GetNutritionalSummary(foods), c) ==
      if InCategory(foods, c) == [] then None else Some(ExpectedTotals(foods, c))
  {
    if foods != [] {
      var pre := foods[..|foods| - 1];
      var f := foods[|foods| - 1];
      var s := GetNutritionalSummary(pre);
      NutritionalSummaryGroups(pre, c);
      ExpectedTotalsStep(foods, c);
      GetPut(s, GetCategory(f), AddTo(Get(s, GetCategory(f)).GetOr(NoTotals), f), c);
    }
  }

  lemma AddFoodSums(s: seq<(string, CategoryTotals)>, food: string)
    ensures SumValues(AddFood(s, food), CountOf) == SumValues(s, CountOf) + 1
    ensures SumValues(AddFood(s, food), CaloriesOf) == SumValues(s, CaloriesOf) + GetCalories(food)
  {
    var c := GetCategory(food);
    var t := AddTo(Get(s, c).GetOr(NoTotals), food);
    SumValuesPut(s, c, t, CountOf);
    SumValuesPut(s, c, t, CaloriesOf);
  }

  /** The category counts add up to the number of labels, and the category calorie
      totals add up to the calorie total of all labels. */
  lemma {:induction false} NutritionalSummarySums(foods: seq<string>)
    ensures SumValues(GetNutritionalSummary(foods), CountOf) == |foods|
    ensures SumValues(GetNutritionalSummary(foods), CaloriesOf) == CalculateTotalCalories(foods)
  {
    if foods != [] {
      var pre := foods[..|foods| - 1];
      NutritionalSummarySums(pre);
      AddFoodSums(GetNutritionalSummary(pre), foods[|foods| - 1]);
    }
  }

  /** Categories appear in the summary in the order of their first occurrence among the labels. */
  lemma NutritionalSummaryOrder(foods: seq<string>)
    ensures var summary := GetNutritionalSummary(foods);
      forall i, j :: 0 <= i < j < |summary| ==>
        && summary[i].0 in Categories(foods)
        && summary[j].0 in Categories(foods)
        && Tally.IndexOf(Categories(foods), summary[i].0) < Tally.IndexOf(Categories(foods), summary[j].0)
  {
    NutritionalSummaryKeys(foods);
    Tally.FirstSeenOrdered(Categories(foods));
    var summary := GetNutritionalSummary(foods);
    assert forall i :: 0 <= i < |summary| ==> summary[i].0 == Keys(summary)[i];
  }
}
