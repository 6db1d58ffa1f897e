/** The recipe data gateway: normalisation of raw meal records into recipes,
    and the mapping of API response envelopes (or their failure) onto the
    values the service hands to its callers. HTTP itself is not modelled:
    each service operation takes the reply it would have received. */
module RecipeService {
  import opened Wrappers
  import opened Text
  import opened Indices

  /** One ingredient line of a recipe. */
  datatype Ingredient = Ingredient(name: string, measure: string)

  /** A raw meal record as the API delivers it: field name to a string or
      `null` (`None`); a key that is not in the map reads as `undefined`. */
  type Meal = map<string, Option<string>>

  /** A normalised recipe: every field of the raw record except `ingredients`
      (which the spread keeps as-is), plus the extracted ingredient list. */
  datatype Recipe = Recipe(fields: map<string, Option<string>>, ingredients: seq<Ingredient>)

  /** A category as listed by the categories endpoint. */
  datatype Category = Category(
    idCategory: string, strCategory: string,
    strCategoryThumb: string, strCategoryDescription: string)

  /** The `{ meals: [...] | null }` envelope of the meal endpoints. */
  datatype MealsEnvelope = MealsEnvelope(meals: Option<seq<Meal>>)

  /** The `{ categories: [...] }` envelope of the categories endpoint. */
  datatype CategoriesEnvelope = CategoriesEnvelope(categories: Option<seq<Category>>)

  /** Number of numbered ingredient/measure slots in a raw meal. */
  const SlotCount: nat := 20

  /** The field the parsed ingredient list is stored under. */
  const IngredientsField: string := "ingredients"

  function IngredientKey(i: nat): string {
    "strIngredient" + NatToString(i)
  }

  function MeasureKey(i: nat): string {
    "strMeasure" + NatToString(i)
  }

  /** Property access `meal[key]`: absent keys and `null` both read as `None`. */
  function Field(meal: Meal, key: string): Option<string> {
    if key in meal then meal[key] else None
  }

  /** JavaScript truthiness of a string-or-null value. */
  predicate Truthy(v: Option<string>) {
    v.Some? && v.value != ""
  }

  /** Slot `i` contributes an ingredient: its ingredient field is truthy and
      so is its trimmed value, that is, it is not blank (`TrimEmptyIffBlank`). */
  predicate SlotFilled(meal: Meal, i: nat) {
    var v := Field(meal, IngredientKey(i));
    Truthy(v) && !IsBlank(v.value)
  }

  /** The ingredient slot `i` contributes: trimmed name, trimmed measure or
      the empty string when the measure is falsy. */
  function SlotIngredient(meal: Meal, i: nat): Ingredient
    requires SlotFilled(meal, i)
  {
    var m := Field(meal, MeasureKey(i));
    Ingredient(Trim(Field(meal, IngredientKey(i)).value), if Truthy(m) then Trim(m.value) else "")
  }

  /** The slots of `meal` that contribute an ingredient: ascending, within
      1..20, and exactly the filled ones. */
  function FilledSlots(meal: Meal): (slots: seq<nat>)
    ensures |slots| <= SlotCount
    ensures forall j :: 0 <= j < |slots| ==> 1 <= slots[j] <= SlotCount && SlotFilled(meal, slots[j])
    ensures Ascending(slots)
    ensures forall i :: 1 <= i <= SlotCount && SlotFilled(meal, i) ==> i in slots
  {
    WhereSpec((i: nat) => SlotFilled(meal, i), 1, SlotCount + 1);
    Where((i: nat) => SlotFilled(meal, i), 1, SlotCount + 1)
  }

  /** An ingredient as `parseRecipe` produces it: non-empty trimmed name,
      trimmed measure. */
  predicate WellFormedIngredient(ing: Ingredient) {
    ing.name != "" && IsTrimmed(ing.name) && IsTrimmed(ing.measure)
  }

  /** `parseRecipe`: at most 20 ingredients, the j-th contributed by the j-th
      filled slot (so one per filled slot, in slot order), each well formed;
      every other field copied unchanged and only `ingredients` replaced. */
  function ParseRecipe(meal: Meal): (r: Recipe)
    ensures |r.ingredients| == |FilledSlots(meal)| <= SlotCount
    ensures forall j :: 0 <= j < |r.ingredients| ==>
              r.ingredients[j] == SlotIngredient(meal, FilledSlots(meal)[j])
    ensures forall j :: 0 <= j < |r.ingredients| ==> WellFormedIngredient(r.ingredients[j])
    ensures IngredientsField !in r.fields
    ensures forall k :: k != IngredientsField ==>
              (k in r.fields <==> k in meal) && (k in meal ==> r.fields[k] == meal[k])
  {
    var slots := FilledSlots(meal);
    var ings := seq(|slots|, j requires 0 <= j < |slots| => SlotIngredient(meal, slots[j]));
    forall j | 0 <= j < |ings| ensures WellFormedIngredient(ings[j]) {
      SlotIngredientWellFormed(meal, slots[j]);
    }
    Recipe(meal - {IngredientsField}, ings)
  }

  /** What a filled slot contributes is well formed. */
  lemma SlotIngredientWellFormed(meal: Meal, i: nat)
    requires SlotFilled(meal, i)
    ensures WellFormedIngredient(SlotIngredient(meal, i))
  {
    TrimSpec(Field(meal, IngredientKey(i)).value);
    TrimEmptyIffBlank(Field(meal, IngredientKey(i)).value);
    var m := Field(meal, MeasureKey(i));
    if Truthy(m) {
      TrimSpec(m.value);
    }
  }

  /** The slot test is the source's `ingredient && ingredient.trim()`: the
      field is a non-empty string whose trimmed value is non-empty too. */
  lemma SlotFilledIsSourceTest(meal: Meal, i: nat)
    ensures var v := Field(meal, IngredientKey(i));
            SlotFilled(meal, i) <==> Truthy(v) && Trim(v.value) != ""
  {
    var v := Field(meal, IngredientKey(i));
    if v.Some? {
      TrimEmptyIffBlank(v.value);
    }
  }

  /** A slot's measure is always a string: the trimmed measure when one is
      present, otherwise the empty string. */
  lemma MeasureNeverAbsent(meal: Meal, i: nat)
    requires SlotFilled(meal, i)
    ensures var m := Field(meal, MeasureKey(i));
            SlotIngredient(meal, i).measure == (if m.Some? then Trim(m.value) else "")
  {
  }

  // ----- Response envelopes and the failure policy -----

  /** `response.meals || []` followed by `parseRecipe` on every element. */
  function MealList(reply: Reply<MealsEnvelope>): seq<Recipe>
    requires reply.Delivered?
  {
    match reply.value.meals
    case None => []
    case Some(meals) => seq(|meals|, i requires 0 <= i < |meals| => ParseRecipe(meals[i]))
  }

  /** The policy of the list operations that catch their errors: the
      observable always delivers; a failed request or a `null` list delivers
      `[]`; otherwise one parsed recipe per raw meal, in order. */
  predicate CaughtList(reply: Reply<MealsEnvelope>, r: Reply<seq<Recipe>>) {
    && r.Delivered?
    && (reply.Failed? ==> r.value == [])
    && (reply.Delivered? && reply.value.meals.None? ==> r.value == [])
    && (reply.Delivered? && reply.value.meals.Some? ==>
          var meals := reply.value.meals.value;
          |r.value| == |meals|
          && forall i :: 0 <= i < |meals| ==> r.value[i] == ParseRecipe(meals[i]))
  }

  /** `searchRecipes`: a blank query yields `[]` without using any reply;
      otherwise the caught-list policy applies to the search reply. */
  function SearchRecipes(query: string, reply: Reply<MealsEnvelope>): (r: Reply<seq<Recipe>>)
    ensures IsBlank(query) ==> r == Delivered([])
    ensures !IsBlank(query) ==> CaughtList(reply, r)
  {
    TrimEmptyIffBlank(query);
    if Trim(query) == "" then Delivered([])
    else if reply.Failed? then Delivered([])
    else Delivered(MealList(reply))
  }

  /** `getRandomRecipes`: a single random-meal request under the caught-list policy. */
  function RandomRecipes(reply: Reply<MealsEnvelope>): (r: Reply<seq<Recipe>>)
    ensures CaughtList(reply, r)
  {
    if reply.Failed? then Delivered([]) else Delivered(MealList(reply))
  }

  /** `getRecipesByCategory`: the category filter request under the caught-list policy. */
  function RecipesByCategory(reply: Reply<MealsEnvelope>): (r: Reply<seq<Recipe>>)
    ensures CaughtList(reply, r)
  {
    if reply.Failed? then Delivered([]) else Delivered(MealList(reply))
  }

  /** `getRecipeById`: the parsed first meal, or `null` when the list is
      `null` or empty or the request failed; it never fails. */
  function RecipeById(reply: Reply<MealsEnvelope>): (r: Reply<Option<Recipe>>)
    ensures r.Delivered?
    ensures r.value.Some? <==>
              reply.Delivered? && reply.value.meals.Some? && |reply.value.meals.value| > 0
    ensures r.value.Some? ==> r.value.value == ParseRecipe(reply.value.meals.value[0])
  {
    if reply.Failed? then Delivered(None)
    else match reply.value.meals
      case None => Delivered(None)
      case Some(meals) => if |meals| == 0 then Delivered(None) else Delivered(Some(ParseRecipe(meals[0])))
  }

  /** `getPopularRecipes` (the fixed "Beef" filter): no error handler, so a
      failed request fails the observable; otherwise `meals || []`, parsed. */
  function PopularRecipes(reply: Reply<MealsEnvelope>): (r: Reply<seq<Recipe>>)
    ensures r.Failed? <==> reply.Failed?
    ensures r.Delivered? ==> CaughtList(reply, r)
  {
    if reply.Failed? then Failed else Delivered(MealList(reply))
  }

  /** `getCategories`: no error handler; `categories || []` on success. */
  function Categories(reply: Reply<CategoriesEnvelope>): (r: Reply<seq<Category>>)
    ensures r.Failed? <==> reply.Failed?
    ensures r.Delivered? && reply.value.categories.None? ==> r.value == []
    ensures r.Delivered? && reply.value.categories.Some? ==> r.value == reply.value.categories.value
  {
    if reply.Failed? then Failed
    else match reply.value.categories
      case None => Delivered([])
      case Some(cs) => Delivered(cs)
  }

  /** A blank search never depends on the reply: no request is issued. */
  lemma BlankSearchIssuesNoRequest(query: string, a: Reply<MealsEnvelope>, b: Reply<MealsEnvelope>)
    requires IsBlank(query)
    ensures SearchRecipes(query, a) == SearchRecipes(query, b) == Delivered([])
  {
  }

  /** Every recipe any list operation delivers satisfies the recipe invariant. */
  lemma DeliveredRecipesWellFormed(reply: Reply<MealsEnvelope>, r: Reply<seq<Recipe>>)
    requires CaughtList(reply, r)
    ensures forall i :: 0 <= i < |r.value| ==> WellFormedRecipe(r.value[i])
  {
    if reply.Delivered? && reply.value.meals.Some? {
      var meals := reply.value.meals.value;
      forall i | 0 <= i < |r.value| ensures WellFormedRecipe(r.value[i]) {
        assert r.value[i] == ParseRecipe(meals[i]);
      }
    }
  }

  /** The recipe invariant: at most 20 ingredients, each well formed, and no
      raw `ingredients` field left among the copied fields. */
  predicate WellFormedRecipe(r: Recipe) {
    && |r.ingredients| <= SlotCount
    && (forall j :: 0 <= j < |r.ingredients| ==> WellFormedIngredient(r.ingredients[j]))
    && IngredientsField !in r.fields
  }

  // ----- Writing a recipe back into numbered slots -----

  /** Slots `from..20` laid out compactly: ingredient k in slot k + 1, and
      `null` in every slot past the last ingredient, as the API sends them. */
  function SlotFields(ings: seq<Ingredient>, from: nat): Meal
    requires 1 <= from <= SlotCount + 1
    decreases SlotCount + 1 - from
  {
    if from > SlotCount then map[]
    else
      var rest := SlotFields(ings, from + 1);
      if from <= |ings| then
        rest[IngredientKey(from) := Some(ings[from - 1].name)][MeasureKey(from) := Some(ings[from - 1].measure)]
      else
        rest[IngredientKey(from) := None][MeasureKey(from) := None]
  }

  /** The raw record a recipe would come from: its fields with all twenty
      slots overwritten by the compact layout of its ingredients. */
  function ToMeal(r: Recipe): Meal
    requires |r.ingredients| <= SlotCount
  {
    r.fields + SlotFields(r.ingredients, 1)
  }

  lemma IngredientKeyInjective(i: nat, j: nat)
    requires IngredientKey(i) == IngredientKey(j)
    ensures i == j
  {
    var p := "strIngredient";
    assert IngredientKey(i)[|p|..] == NatToString(i);
    assert IngredientKey(j)[|p|..] == NatToString(j);
    NatToStringInjective(i, j);
  }

  lemma MeasureKeyInjective(i: nat, j: nat)
    requires MeasureKey(i) == MeasureKey(j)
    ensures i == j
  {
    var p := "strMeasure";
    assert MeasureKey(i)[|p|..] == NatToString(i);
    assert MeasureKey(j)[|p|..] == NatToString(j);
    NatToStringInjective(i, j);
  }

  lemma KeysDiffer(i: nat, j: nat)
    ensures IngredientKey(i) != MeasureKey(j)
  {
    assert IngredientKey(i)[3] == 'I';
    assert MeasureKey(j)[3] == 'M';
  }

  /** Reading slot `i` of the compact layout. */
  lemma {:induction false} SlotFieldsLookup(ings: seq<Ingredient>, from: nat, i: nat)
    requires 1 <= from <= i <= SlotCount
    decreases i - from
    ensures IngredientKey(i) in SlotFields(ings, from) && MeasureKey(i) in SlotFields(ings, from)
    ensures SlotFields(ings, from)[IngredientKey(i)] == (if i <= |ings| then Some(ings[i - 1].name) else None)
    ensures SlotFields(ings, from)[MeasureKey(i)] == (if i <= |ings| then Some(ings[i - 1].measure) else None)
  {
    if from < i {
      SlotFieldsLookup(ings, from + 1, i);
      KeysDiffer(from, i);
      KeysDiffer(i, from);
      if IngredientKey(from) == IngredientKey(i) {
        IngredientKeyInjective(from, i);
      }
      if MeasureKey(from) == MeasureKey(i) {
        MeasureKeyInjective(from, i);
      }
    } else {
      KeysDiffer(i, i);
    }
  }

  /** In the raw record of a well-formed ingredient list, exactly the first
      `|ings|` slots are filled, each with its own ingredient. */
  lemma ToMealSlots(r: Recipe, i: nat)
    requires |r.ingredients| <= SlotCount
    requires forall j :: 0 <= j < |r.ingredients| ==> WellFormedIngredient(r.ingredients[j])
    requires 1 <= i <= SlotCount
    ensures SlotFilled(ToMeal(r), i) <==> i <= |r.ingredients|
    ensures i <= |r.ingredients| ==> SlotFilled(ToMeal(r), i) && SlotIngredient(ToMeal(r), i) == r.ingredients[i - 1]
  {
    var m := ToMeal(r);
    SlotFieldsLookup(r.ingredients, 1, i);
    assert Field(m, IngredientKey(i)) == SlotFields(r.ingredients, 1)[IngredientKey(i)];
    assert Field(m, MeasureKey(i)) == SlotFields(r.ingredients, 1)[MeasureKey(i)];
    if i <= |r.ingredients| {
      var ing := r.ingredients[i - 1];
      TrimOfTrimmed(ing.name);
      TrimOfTrimmed(ing.measure);
    }
  }

  /** A record whose first `|ings|` slots hold `ings`, and whose other slots
      are empty, parses to exactly `ings`. */
  lemma ParseCompact(m: Meal, ings: seq<Ingredient>)
    requires |ings| <= SlotCount
    requires forall i :: 1 <= i <= SlotCount ==> (SlotFilled(m, i) <==> i <= |ings|)
    requires forall i :: 1 <= i <= |ings| ==> SlotFilled(m, i) && SlotIngredient(m, i) == ings[i - 1]
    ensures ParseRecipe(m).ingredients == ings
  {
    var filled := (i: nat) => SlotFilled(m, i);
    WhereInitialRun(filled, 1, SlotCount + 1, |ings| + 1);
    var slots := FilledSlots(m);
    assert slots == Where(filled, 1, SlotCount + 1);
    forall k | 0 <= k < |ings| ensures ParseRecipe(m).ingredients[k] == ings[k] {
      assert slots[k] == k + 1;
    }
  }

  /** Round trip: writing a well-formed recipe's ingredients into the twenty
      slots and parsing again gives back the same ingredients in the same
      order; every non-slot field survives as well. */
  lemma {:induction false} ParseToMealRoundTrip(r: Recipe)
    requires WellFormedRecipe(r)
    ensures ParseRecipe(ToMeal(r)).ingredients == r.ingredients
    ensures forall k :: k in r.fields && k !in SlotFields(r.ingredients, 1) ==>
              k in ParseRecipe(ToMeal(r)).fields && ParseRecipe(ToMeal(r)).fields[k] == r.fields[k]
  {
    var m := ToMeal(r);
    var ings := r.ingredients;
    forall i | 1 <= i <= SlotCount
      ensures SlotFilled(m, i) <==> i <= |ings|
      ensures i <= |ings| ==> SlotFilled(m, i) && SlotIngredient(m, i) == ings[i - 1]
    {
      ToMealSlots(r, i);
    }
    ParseCompact(m, ings);
  }

  /** Parsing is stable: a parsed recipe written back and parsed again has
      the same ingredients. */
  lemma ReparseStable(meal: Meal)
    ensures ParseRecipe(ToMeal(ParseRecipe(meal))).ingredients == ParseRecipe(meal).ingredients
  {
    ParseToMealRoundTrip(ParseRecipe(meal));
  }
}
