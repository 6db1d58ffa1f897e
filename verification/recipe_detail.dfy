/** The recipe detail page: loading one recipe by the id in the route, and
    the mock list of nearby stores generated once a recipe has arrived.
    `Math.random()` is a parameter: each store takes three draws from [0, 1). */
module RecipeDetail {
  import opened Wrappers
  import opened Text
  import opened RecipeService

  /** A store that sells the ingredients. */
  datatype Restaurant = Restaurant(
    name: string,
    address: string,
    rating: int,
    distance: string,
    priceRange: string,
    specialties: seq<string>)

  /** The three `Math.random()` results one store consumes, in the order the
      object literal evaluates them: rating, distance, price range. */
  datatype Draws = Draws(rating: real, distance: real, price: real)

  /** What `Math.random()` can return. */
  predicate IsRandom(x: real) {
    0.0 <= x < 1.0
  }

  predicate ValidDraws(ds: seq<Draws>) {
    forall i :: 0 <= i < |ds| ==>
      IsRandom(ds[i].rating) && IsRandom(ds[i].distance) && IsRandom(ds[i].price)
  }

  const StoreNames: seq<string> := [
    "Fresh Market Grocery",
    "Organic Foods Co.",
    "Local Farmers Market",
    "Gourmet Ingredients Store",
    "Healthy Living Market",
    "Artisan Food Shop",
    "International Foods",
    "Premium Grocers"
  ]

  const Addresses: seq<string> := [
    "123 Main Street, Downtown",
    "456 Oak Avenue, Midtown",
    "789 Pine Road, Uptown",
    "321 Elm Street, Westside",
    "654 Maple Drive, Eastside",
    "987 Cedar Lane, Northside",
    "147 Birch Boulevard, Southside",
    "258 Spruce Court, Central"
  ]

  const Specialties: seq<seq<string>> := [
    ["Organic Produce", "Fresh Herbs", "Local Dairy"],
    ["Gourmet Ingredients", "International Foods", "Artisan Bread"],
    ["Farm Fresh", "Seasonal Produce", "Free Range Eggs"],
    ["Premium Meats", "Fresh Seafood", "Cheese Selection"],
    ["Health Foods", "Gluten Free", "Vegan Options"],
    ["Bakery Items", "Deli Meats", "Gourmet Cheese"],
    ["Asian Ingredients", "Mediterranean Foods", "Latin Products"],
    ["Organic Groceries", "Natural Foods", "Specialty Items"]
  ]

  const PriceRanges: seq<string> := ["$", "$$", "$$$"]

  /** `Math.floor(x * n)` for a draw `x`: a uniform pick from `0..n-1`. */
  function Pick(x: real, n: nat): (k: int)
    requires IsRandom(x) && n > 0
    ensures 0 <= k < n
  {
    var scaled := x * n as real;
    assert 0.0 <= scaled < n as real by {
      assert n as real - scaled == (1.0 - x) * n as real;
    }
    scaled.Floor
  }

  /** A distance label such as "3 km". */
  predicate IsDistanceLabel(d: string) {
    |d| == 4 && '1' <= d[0] <= '5' && d[1..] == " km"
  }

  /** The store at position `i` with its three draws. */
  function MockRestaurant(i: nat, d: Draws): Restaurant
    requires i < |StoreNames| && IsRandom(d.rating) && IsRandom(d.distance) && IsRandom(d.price)
  {
    Restaurant(
      StoreNames[i],
      Addresses[i],
      Pick(d.rating, 2) + 4,
      NatToString(Pick(d.distance, 5) + 1) + " km",
      PriceRanges[Pick(d.price, 3)],
      Specialties[i])
  }

  /** `generateMockRestaurants`: one store per name, in order, with its fixed
      address and specialties; only the rating (4 or 5), the distance
      (1 to 5 km) and the price range vary with the draws. */
  function MockRestaurants(ds: seq<Draws>): (rs: seq<Restaurant>)
    requires |ds| == |StoreNames| && ValidDraws(ds)
    ensures |rs| == |StoreNames|
    ensures forall i :: 0 <= i < |rs| ==>
              && rs[i].name == StoreNames[i]
              && rs[i].address == Addresses[i]
              && rs[i].specialties == Specialties[i]
    ensures forall i :: 0 <= i < |rs| ==>
              && 4 <= rs[i].rating <= 5
              && IsDistanceLabel(rs[i].distance)
              && rs[i].priceRange in PriceRanges
  {
    seq(|ds|, i requires 0 <= i < |ds| => MockRestaurant(i, ds[i]))
  }

  /** Every combination the ranges allow does occur: for any store, any
      rating of 4 or 5, any distance of 1 to 5 km and any price range there
      are draws that produce exactly that store. */
  lemma EveryStoreVariantOccurs(i: nat, rating: int, km: int, price: nat)
    requires i < |StoreNames| && 4 <= rating <= 5 && 1 <= km <= 5 && price < |PriceRanges|
    ensures exists d: Draws ::
              && IsRandom(d.rating) && IsRandom(d.distance) && IsRandom(d.price)
              && MockRestaurant(i, d)
                 == Restaurant(StoreNames[i], Addresses[i], rating,
                               NatToString(km) + " km", PriceRanges[price], Specialties[i])
  {
    var d := Draws((rating - 4) as real / 2.0, (km - 1) as real / 5.0, price as real / 3.0);
    assert d.rating * 2.0 == (rating - 4) as real;
    assert d.distance * 5.0 == (km - 1) as real;
    assert d.price * 3.0 == price as real;
    assert Pick(d.rating, 2) == rating - 4;
    assert Pick(d.distance, 5) == km - 1;
    assert Pick(d.price, 3) == price;
  }

  /** The page's fields. */
  datatype DetailState = DetailState(
    recipe: Option<Recipe>,
    loading: bool,
    error: string,
    restaurants: seq<Restaurant>)

  const Initial: DetailState := DetailState(None, false, "", [])

  const NotFound: string := "Recipe not found"
  const LoadFailed: string := "Failed to load recipe. Please try again."

  /** A route change: the new state and the id of the recipe requested, if any. */
  datatype Step = Step(state: DetailState, request: Option<string>)

  /** The `params` subscription with `loadRecipe`'s opening: a non-empty `id`
      starts a load (spinner on, error cleared); otherwise nothing happens. */
  function OnRouteParams(s: DetailState, params: map<string, string>): (step: Step)
    ensures step.request.Some? <==> "id" in params && params["id"] != ""
    ensures step.request.Some? ==>
              && step.request.value == params["id"]
              && step.state == s.(loading := true, error := "")
    ensures step.request.None? ==> step.state == s
  {
    if "id" in params && params["id"] != "" then Step(s.(loading := true, error := ""), Some(params["id"]))
    else Step(s, None)
  }

  /** `loadRecipe`'s handlers: a recipe is shown and the stores generated; a
      `null` recipe reads "Recipe not found"; an error reads the load-failure
      message. The spinner stops in every case, and a previous recipe is kept
      when no new one arrives. */
  function RecipeArrived(s: DetailState, outcome: Reply<Option<Recipe>>, ds: seq<Draws>): (t: DetailState)
    requires |ds| == |StoreNames| && ValidDraws(ds)
    ensures !t.loading
    ensures outcome.Delivered? && outcome.value.Some? ==>
              && t.recipe == outcome.value
              && t.error == s.error
              && t.restaurants == MockRestaurants(ds)
    ensures outcome.Delivered? && outcome.value.None? ==>
              t.error == NotFound && t.recipe == s.recipe && t.restaurants == s.restaurants
    ensures outcome.Failed? ==>
              t.error == LoadFailed && t.recipe == s.recipe && t.restaurants == s.restaurants
  {
    match outcome
    case Delivered(Some(r)) => s.(recipe := Some(r), restaurants := MockRestaurants(ds), loading := false)
    case Delivered(None) => s.(error := NotFound, loading := false)
    case Failed => s.(error := LoadFailed, loading := false)
  }

  /** The page shows the recipe's content. */
  predicate ShowsContent(s: DetailState) {
    !s.loading && s.error == "" && s.recipe.Some?
  }

  /** A whole load by id, from the route change to the service's answer. The
      load-failure message is unreachable because the service turns every
      failure into "not found"; the content is shown exactly when the reply
      holds at least one meal, and it is the first meal, parsed. */
  lemma LoadByIdOutcome(s: DetailState, id: string, reply: Reply<MealsEnvelope>, ds: seq<Draws>)
    requires id != ""
    requires |ds| == |StoreNames| && ValidDraws(ds)
    ensures var started := OnRouteParams(s, map["id" := id]);
            var t := RecipeArrived(started.state, RecipeById(reply), ds);
            && started.request == Some(id)
            && t.error != LoadFailed
            && (ShowsContent(t) <==> reply.Delivered? && reply.value.meals.Some? && |reply.value.meals.value| > 0)
            && (ShowsContent(t) ==> t.recipe == Some(ParseRecipe(reply.value.meals.value[0])))
            && (!ShowsContent(t) ==> t.error == NotFound && t.recipe == s.recipe)
  {
  }
}
