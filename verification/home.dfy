/** The home page: its view state, the four kinds of recipe load it starts,
    how a load's outcome lands in the state, and how route query parameters,
    the search box and the category grid choose a load. Each request is
    modelled as the reply it receives; a load runs to completion before the
    next one starts. */
module Home {
  import opened Wrappers
  import opened Text
  import opened RecipeService
  import opened SearchStream

  /** The component's fields that the page renders. */
  datatype HomeState = HomeState(
    recipes: seq<Recipe>,
    categories: seq<Category>,
    loading: bool,
    error: string,
    searchQuery: string,
    selectedCategory: string,
    isSearching: bool)

  /** The field initialisers. */
  const Initial: HomeState := HomeState([], [], false, "", "", "", false)

  /** The category name that selects the popular list. */
  const PopularCategory: string := "popular"

  /** A recipe load the page can start. */
  datatype Load =
    | SearchLoad(query: string)
    | RandomLoad
    | PopularLoad
    | CategoryLoad(category: string)

  /** Route query parameters, such as `?search=chicken` or `?category=Beef`. */
  type Params = map<string, string>

  function Param(params: Params, key: string): Option<string> {
    if key in params then Some(params[key]) else None
  }

  /** The category a load marks as selected. */
  function SelectedFor(load: Load): string {
    match load
    case SearchLoad(_) => ""
    case RandomLoad => ""
    case PopularLoad => PopularCategory
    case CategoryLoad(c) => c
  }

  /** The message a failed load shows. */
  function ErrorFor(load: Load): (msg: string)
    ensures msg != ""
  {
    match load
    case SearchLoad(_) => "Failed to search recipes. Please try again."
    case RandomLoad => "Failed to load recipes. Please try again."
    case PopularLoad => "Failed to load popular recipes. Please try again."
    case CategoryLoad(_) => "Failed to load recipes for this category. Please try again."
  }

  /** The state a load sets before its request goes out (`performSearch`,
      `loadRandomRecipes`, `loadPopularRecipes`, `loadRecipesByCategory`). */
  function Begin(s: HomeState, load: Load): (t: HomeState)
    ensures t.loading && t.error == ""
    ensures t.isSearching <==> load.SearchLoad?
    ensures t.selectedCategory == SelectedFor(load)
    ensures t.recipes == s.recipes && t.categories == s.categories && t.searchQuery == s.searchQuery
  {
    s.(loading := true, error := "", isSearching := load.SearchLoad?, selectedCategory := SelectedFor(load))
  }

  /** The state once the load's observable has delivered or failed. A search
      clears `isSearching` either way; the other loads leave it alone. */
  function Complete(s: HomeState, load: Load, outcome: Reply<seq<Recipe>>): (t: HomeState)
    ensures !t.loading
    ensures outcome.Delivered? ==> t.recipes == outcome.value && t.error == s.error
    ensures outcome.Failed? ==> t.error == ErrorFor(load) && t.recipes == s.recipes
    ensures t.isSearching <==> s.isSearching && !load.SearchLoad?
    ensures t.categories == s.categories && t.searchQuery == s.searchQuery
    ensures t.selectedCategory == s.selectedCategory
  {
    var settled := s.(loading := false, isSearching := s.isSearching && !load.SearchLoad?);
    match outcome
    case Delivered(rs) => settled.(recipes := rs)
    case Failed => settled.(error := ErrorFor(load))
  }

  /** The service call a load makes, given the API reply it receives. */
  function Fetch(load: Load, reply: Reply<MealsEnvelope>): (r: Reply<seq<Recipe>>)
    ensures r.Failed? <==> load.PopularLoad? && reply.Failed?
  {
    match load
    case SearchLoad(q) => SearchRecipes(q, reply)
    case RandomLoad => RandomRecipes(reply)
    case PopularLoad => PopularRecipes(reply)
    case CategoryLoad(_) => RecipesByCategory(reply)
  }

  /** A whole load: begin, fetch, complete. */
  function Run(s: HomeState, load: Load, reply: Reply<MealsEnvelope>): HomeState {
    Complete(Begin(s, load), load, Fetch(load, reply))
  }

  /** Only a failed popular load ever shows an error: the other service calls
      turn failures into an empty list. Every load clears the spinner and the
      searching flag, and keeps the selected category it set. */
  lemma RunOutcome(s: HomeState, load: Load, reply: Reply<MealsEnvelope>)
    ensures var t := Run(s, load, reply);
            && !t.loading && !t.isSearching
            && t.selectedCategory == SelectedFor(load)
            && (t.error != "" <==> load.PopularLoad? && reply.Failed?)
            && (t.error != "" ==> t.error == "Failed to load popular recipes. Please try again." && t.recipes == s.recipes)
            && (t.error == "" ==> t.recipes == Fetch(load, reply).value)
  {
  }

  /** Which block of the recipes section is shown. */
  predicate ShowsSpinner(s: HomeState) { s.loading }
  predicate ShowsError(s: HomeState) { s.error != "" }
  predicate ShowsGrid(s: HomeState) { !s.loading && s.error == "" && |s.recipes| > 0 }
  predicate ShowsNoResults(s: HomeState) { !s.loading && s.error == "" && |s.recipes| == 0 }

  /** After a load the page shows exactly one of the error, the grid and the
      "No recipes found" block, and no spinner. */
  lemma RunShowsOneBlock(s: HomeState, load: Load, reply: Reply<MealsEnvelope>)
    ensures var t := Run(s, load, reply);
            && !ShowsSpinner(t)
            && (ShowsError(t) || ShowsGrid(t) || ShowsNoResults(t))
            && !(ShowsError(t) && ShowsGrid(t))
            && !(ShowsError(t) && ShowsNoResults(t))
            && !(ShowsGrid(t) && ShowsNoResults(t))
  {
  }

  /** `getSectionTitle`: a search beats the popular list, which beats a named
      category, which beats the default. */
  function SectionTitle(s: HomeState): string {
    if s.isSearching then "Search Results for \"" + s.searchQuery + "\""
    else if s.selectedCategory == PopularCategory then "Popular Recipes"
    else if s.selectedCategory != "" then s.selectedCategory + " Recipes"
    else "Discover Recipes"
  }

  /** What a route change does: the new state and the load it starts, if any. */
  datatype Step = Step(state: HomeState, load: Option<Load>)

  /** Start a load from state `s`. */
  function Start(s: HomeState, load: Load): Step {
    Step(Begin(s, load), Some(load))
  }

  /** The `queryParams` subscription: a non-empty `search` parameter wins and
      is copied into the search box; otherwise a non-empty `category` is
      selected, with "popular" meaning the popular list; otherwise nothing
      happens. */
  function OnQueryParams(s: HomeState, params: Params): (step: Step)
    ensures step.load.None? <==> !Truthy(Param(params, "search")) && !Truthy(Param(params, "category"))
    ensures step.load.None? ==> step.state == s
    ensures step.load.Some? ==>
              && step.state.loading && step.state.error == ""
              && step.state.recipes == s.recipes
              && step.state.selectedCategory == SelectedFor(step.load.value)
    ensures Truthy(Param(params, "search")) ==>
              var q := Param(params, "search").value;
              step.load == Some(SearchLoad(q)) && step.state.searchQuery == q
    ensures !Truthy(Param(params, "search")) ==> step.state.searchQuery == s.searchQuery
    ensures !Truthy(Param(params, "search")) && Truthy(Param(params, "category")) ==>
              var c := Param(params, "category").value;
              step.load == Some(if c == PopularCategory then PopularLoad else CategoryLoad(c))
  {
    var search := Param(params, "search");
    var category := Param(params, "category");
    if Truthy(search) then
      Start(s.(searchQuery := search.value), SearchLoad(search.value))
    else if Truthy(category) then
      var selected := s.(selectedCategory := category.value);
      if category.value == PopularCategory then Start(selected, PopularLoad)
      else Start(selected, CategoryLoad(category.value))
    else Step(s, None)
  }

  /** The section title once a route change has been acted on and its load
      has finished, whatever the reply: it follows the parameter that won. */
  lemma TitleAfterRoute(s: HomeState, params: Params, reply: Reply<MealsEnvelope>)
    requires Truthy(Param(params, "search")) || Truthy(Param(params, "category"))
    ensures var step := OnQueryParams(s, params);
            var title := SectionTitle(Run(step.state, step.load.value, reply));
            if Truthy(Param(params, "search")) then title == "Discover Recipes"
            else if Param(params, "category").value == PopularCategory then title == "Popular Recipes"
            else title == Param(params, "category").value + " Recipes"
  {
    RunOutcome(OnQueryParams(s, params).state, OnQueryParams(s, params).load.value, reply);
  }

  /** While a routed search is in flight the title names the search text. */
  lemma TitleWhileSearching(s: HomeState, params: Params)
    requires Truthy(Param(params, "search"))
    ensures SectionTitle(OnQueryParams(s, params).state)
            == "Search Results for \"" + Param(params, "search").value + "\""
  {
  }

  /** `onSearch`: navigate to `?search=<trimmed text>` unless the box is blank. */
  function OnSearch(s: HomeState): (nav: Option<Params>)
    ensures nav.Some? <==> !IsBlank(s.searchQuery)
    ensures nav.Some? ==> nav.value == map["search" := Trim(s.searchQuery)] && IsTrimmed(nav.value["search"])
  {
    TrimEmptyIffBlank(s.searchQuery);
    TrimSpec(s.searchQuery);
    var q := Trim(s.searchQuery);
    if q != "" then Some(map["search" := q]) else None
  }

  /** Submitting the box round-trips through the route: the search that runs
      is for the trimmed text, and the box then holds that trimmed text. */
  lemma SubmitSearchRoundTrip(s: HomeState, t: HomeState)
    requires !IsBlank(s.searchQuery)
    ensures var step := OnQueryParams(t, OnSearch(s).value);
            && step.load == Some(SearchLoad(Trim(s.searchQuery)))
            && step.state.searchQuery == Trim(s.searchQuery)
            && step.state.isSearching
  {
    TrimEmptyIffBlank(s.searchQuery);
  }

  /** `selectCategory`: navigate to `?category=<name>`. */
  function SelectCategory(category: string): (nav: Params)
    ensures Param(nav, "category") == Some(category) && Param(nav, "search") == None
  {
    map["category" := category]
  }

  /** Picking a category round-trips through the route to the matching load;
      an empty name starts nothing. */
  lemma SelectCategoryRoundTrip(s: HomeState, category: string)
    ensures var step := OnQueryParams(s, SelectCategory(category));
            && (category == "" ==> step.load.None?)
            && (category == PopularCategory ==> step.load == Some(PopularLoad))
            && (category != "" && category != PopularCategory ==> step.load == Some(CategoryLoad(category)))
            && (category != "" ==> step.state.selectedCategory == category)
  {
  }

  /** `clearSearch`: empty the box and navigate to the bare home route. */
  function ClearSearch(s: HomeState): (r: (HomeState, Params))
    ensures r.0 == s.(searchQuery := "")
    ensures r.1 == map[]
  {
    (s.(searchQuery := ""), map[])
  }

  /** "Browse All Recipes" fetches nothing: the bare route matches neither
      branch of the subscription, so the results on screen stay as they were. */
  lemma ClearSearchFetchesNothing(s: HomeState)
    ensures var (cleared, nav) := ClearSearch(s);
            && OnQueryParams(cleared, nav).load.None?
            && OnQueryParams(cleared, nav).state.recipes == s.recipes
            && OnQueryParams(cleared, nav).state.searchQuery == ""
  {
  }

  /** A value out of the debounced search stream: search for it when it is
      not blank, otherwise reload random recipes. The untrimmed value is what
      gets searched. */
  function OnDebounced(value: string): (load: Load)
    ensures load == SearchLoad(value) <==> !IsBlank(value)
    ensures load == RandomLoad <==> IsBlank(value)
  {
    TrimEmptyIffBlank(value);
    if Trim(value) != "" then SearchLoad(value) else RandomLoad
  }

  /** Once typing stops for the debounce window, the last load the search box
      starts is for the box's final text (or a random reload if it is blank). */
  lemma TypingEndsWithLatest(ks: seq<Keystroke>, now: int)
    requires |ks| > 0 && now - ks[|ks| - 1].time >= DebounceWindow
    ensures var d := Dispatched(ks, now);
            && |d| > 0
            && OnDebounced(d[|d| - 1]) == OnDebounced(ks[|ks| - 1].text)
  {
    DispatchedEndsWithLatest(ks, now);
  }

  /** `ngOnInit`: request the categories and start a random load. */
  function Init(): (step: Step)
    ensures step.load == Some(RandomLoad)
    ensures step.state.loading && !step.state.isSearching
    ensures step.state.recipes == [] && step.state.categories == []
  {
    Start(Initial, RandomLoad)
  }

  /** The page right after start-up settles shows "Discover Recipes". */
  lemma InitTitle(reply: Reply<MealsEnvelope>)
    ensures SectionTitle(Run(Initial, RandomLoad, reply)) == "Discover Recipes"
  {
  }

  /** The categories request landing: a delivered list replaces the grid's
      categories; a failure is only logged. Nothing else changes. */
  function CategoriesArrived(s: HomeState, outcome: Reply<seq<Category>>): (t: HomeState)
    ensures outcome.Delivered? ==> t == s.(categories := outcome.value)
    ensures outcome.Failed? ==> t == s
  {
    match outcome
    case Delivered(cs) => s.(categories := cs)
    case Failed => s
  }

  /** A failing categories endpoint never puts the page into its error state. */
  lemma CategoriesNeverShowError(s: HomeState, reply: Reply<CategoriesEnvelope>)
    ensures CategoriesArrived(s, Categories(reply)).error == s.error
    ensures CategoriesArrived(s, Categories(reply)).recipes == s.recipes
  {
  }
}
