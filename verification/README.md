# Recipe app core, modelled in Dafny

This project models the logic core of a small Angular recipe browser built on
TheMealDB API. The core has four parts:

- **Recipe service** (`RecipeService`, `recipe_service.dfy`). `parseRecipe`
  turns a raw meal record into a recipe. It scans the twenty numbered
  `strIngredientN`/`strMeasureN` slots, trims them, skips blank ingredients
  and copies every other field. The service operations map the API's
  `{ meals: [...] | null }` envelope, or a failed request, onto what callers
  receive: `[]`, the parsed list, the first recipe, or `null`. They also
  follow each operation's error policy. The list operations and the lookup
  catch errors; the cached popular and category lists do not.
- **Recipe card** (`RecipeCard`, `recipe_card.dfy`). `getTags` splits
  `strTags` at commas, trims the pieces and keeps three. The ingredient
  preview joins the first four names with `", "` and adds `"..."` when more
  follow.
- **Home page** (`Home`, `home.dfy`, plus `SearchStream`,
  `search_stream.dfy`). The page is a state record with pure transitions:
  - the four loads (search, random, popular, category) and the flags each
    one sets;
  - how a reply or failure lands;
  - query-parameter dispatch: `search` beats `category`, and `"popular"` beats
    a literal category;
  - search-box submission, the category grid and "Browse All Recipes";
  - the section title;
  - the live-search stream, `debounceTime(300)` then `distinctUntilChanged()`,
    as a pure function over timestamped keystrokes.
- **Recipe detail page** (`RecipeDetail`, `recipe_detail.dfy`). These are the
  route-id guard and the three outcomes of `loadRecipe`: found, not found, and
  failed. They also cover the eight mock stores, whose rating, distance and
  price come from `Math.random()`.

Supporting modules:

- `Wrappers` holds `Option` and the `Reply` of an HTTP request: delivered or
  failed.
- `Text` holds the JavaScript string operations the core uses: `trim`, `split`
  on one character, `join`, and decimal formatting. Each comes with its laws,
  such as trim's shape, split/join round trips, and the injectivity of the
  slot-key numbering.
- `Indices` holds `Where`, the ascending list of the positions in a range
  that pass a test. Both the slot scan and the debounce are built on it.

Modelling choices:

- A raw meal is a `map<string, Option<string>>`. A missing key is
  `undefined` and `None` is `null`; both are falsy, like the empty string.
- HTTP is replaced by its reply. Each service operation takes the
  `Reply<MealsEnvelope>` it would have received.
- Time is a parameter. A keystroke is `(time, text)`. The debounce is observed
  at a time `now`: a keystroke has been emitted only once its 300 ms window has
  run out by `now`, and only if the next keystroke did not arrive inside it.
- `Math.random()` is a parameter: a real number in `[0, 1)`. `Math.floor` is
  `.Floor`.

## Model

| member | source | states |
|---|---|---|
| Text.TrimSpec | recipe-app/src/app/services/recipe.service.ts:148-151 | `trim()` returns a trimmed infix of its input; everything cut from either end is whitespace |
| Text.TrimEmptyIffBlank | recipe-app/src/app/services/recipe.service.ts:148 | `s.trim()` is empty (falsy) exactly when `s` consists only of whitespace |
| Text.TrimIdempotent | recipe-app/src/app/services/recipe.service.ts:150-151 | trimming twice is trimming once |
| Text.Split | recipe-app/src/app/components/recipe-card/recipe-card.component.ts:243 | `split(',')` gives one more piece than there are commas, keeping empty pieces |
| Text.SplitSpec | recipe-app/src/app/components/recipe-card/recipe-card.component.ts:243 | no piece of `split(',')` contains a comma |
| Text.JoinSplit | recipe-app/src/app/components/recipe-card/recipe-card.component.ts:243 | joining the pieces of a split with the separator rebuilds the string |
| Text.SplitJoin | recipe-app/src/app/components/recipe-card/recipe-card.component.ts:248 | splitting a join of separator-free pieces gives the pieces back |
| Text.NatToStringInjective | recipe-app/src/app/services/recipe.service.ts:145-146 | different slot numbers give different decimal strings, so `strIngredient${i}` keys never collide |
| RecipeService.FilledSlots | recipe-app/src/app/services/recipe.service.ts:144-148 | the slots that contribute an ingredient: within 1..20, ascending, passing the test, and every passing slot is present |
| RecipeService.ParseRecipe | recipe-app/src/app/services/recipe.service.ts:140-160 | at most 20 ingredients; the j-th comes from the j-th filled slot (slot order, blanks skipped); each has a non-empty trimmed name and a trimmed measure; `ingredients` is replaced and every other field is copied unchanged |
| RecipeService.SlotFilledIsSourceTest | recipe-app/src/app/services/recipe.service.ts:145-148 | slot i contributes exactly when `strIngredient{i}` is truthy and its trim is non-empty |
| RecipeService.SlotIngredientWellFormed | recipe-app/src/app/services/recipe.service.ts:148-151 | a contributed name is non-empty and trimmed; the measure is trimmed |
| RecipeService.MeasureNeverAbsent | recipe-app/src/app/services/recipe.service.ts:151 | the measure is the trimmed `strMeasure{i}` when present and `''` otherwise, never absent |
| RecipeService.SearchRecipes | recipe-app/src/app/services/recipe.service.ts:68-83 | a blank query delivers `[]`; otherwise a failure or a `null` list delivers `[]` and a list delivers one parsed recipe per meal, in order |
| RecipeService.BlankSearchIssuesNoRequest | recipe-app/src/app/services/recipe.service.ts:69-71 | a blank query's result does not depend on any reply, so no request is made |
| RecipeService.RandomRecipes | recipe-app/src/app/services/recipe.service.ts:92-100 | the single random request under the catch-to-`[]` policy, `meals` parsed one by one |
| RecipeService.RecipesByCategory | recipe-app/src/app/services/recipe.service.ts:117-127 | the category filter request under the catch-to-`[]` policy, `meals` parsed one by one |
| RecipeService.RecipeById | recipe-app/src/app/services/recipe.service.ts:104-114 | never fails; a recipe is delivered exactly when the reply holds a non-empty list, and it is the first meal parsed; otherwise `null` |
| RecipeService.PopularRecipes | recipe-app/src/app/services/recipe.service.ts:59-64 | fails exactly when the request fails (no handler); otherwise `meals \|\| []`, parsed |
| RecipeService.Categories | recipe-app/src/app/services/recipe.service.ts:53-57 | fails exactly when the request fails; otherwise `categories \|\| []` |
| RecipeService.DeliveredRecipesWellFormed | recipe-app/src/app/services/recipe.service.ts:76-77 | every recipe a list operation delivers has at most 20 well-formed ingredients and no raw `ingredients` field |
| RecipeService.IngredientKeyInjective | recipe-app/src/app/services/recipe.service.ts:145 | two slot numbers with the same ingredient key are the same slot |
| RecipeService.ParseToMealRoundTrip | recipe-app/src/app/services/recipe.service.ts:144-159 | writing a well-formed recipe's ingredients into slots 1..n (later slots `null`) and parsing gives back the same ingredients in order; the other fields survive |
| RecipeService.ReparseStable | recipe-app/src/app/services/recipe.service.ts:140-160 | a parsed recipe written back to slots reparses to the same ingredients |
| RecipeCard.GetTags | recipe-app/src/app/components/recipe-card/recipe-card.component.ts:241-244 | `[]` when `strTags` is falsy; otherwise `min(3, commas + 1)` tags, the k-th being the trim of the k-th comma piece, empty pieces kept |
| RecipeCard.TagsTrimmedWithoutSeparator | recipe-app/src/app/components/recipe-card/recipe-card.component.ts:243 | every tag is trimmed and contains no comma |
| RecipeCard.TagsRebuildField | recipe-app/src/app/components/recipe-card/recipe-card.component.ts:243 | with at most three already-trimmed pieces, joining the tags with `,` rebuilds `strTags` |
| RecipeCard.PreviewNames | recipe-app/src/app/components/recipe-card/recipe-card.component.ts:247-248 | the names of the first `min(4, n)` ingredients, in order |
| RecipeCard.IngredientsPreview | recipe-app/src/app/components/recipe-card/recipe-card.component.ts:246-250 | `""` with no ingredients; ends with `"..."` when there are more than four; the part before the ellipsis is those names joined by `", "` |
| RecipeCard.PreviewSplitsIntoNames | recipe-app/src/app/components/recipe-card/recipe-card.component.ts:248 | when no name has a comma, cutting the preview's body at commas gives the first shown name, then each later shown name led by one space (the space of `", "`), in order |
| RecipeCard.EllipsisIffMore | recipe-app/src/app/components/recipe-card/recipe-card.component.ts:248-249 | the preview ends with `"..."` if and only if there are more than four ingredients (for names not ending in `.`) |
| SearchStream.Settled | recipe-app/src/app/pages/home/home.component.ts:363 | the keystrokes `debounceTime(300)` has emitted by time `now`: those whose 300 ms window has run out by `now` with no next keystroke inside it, all of them, in order |
| SearchStream.Debounce | recipe-app/src/app/pages/home/home.component.ts:363 | the emitted values are the texts of exactly those keystrokes, in order |
| SearchStream.DebounceBurst | recipe-app/src/app/pages/home/home.component.ts:363 | a burst of edits less than 300 ms apart emits only its last text, and only after 300 ms of quiet |
| SearchStream.DebounceLatestWins | recipe-app/src/app/pages/home/home.component.ts:363 | once the box is quiet for 300 ms, the last emitted value is the box's final text |
| SearchStream.DebounceExample | recipe-app/src/app/pages/home/home.component.ts:363 | edits at 0, 100, 150 and 500 ms seen at 800 ms emit the third and the fourth text |
| SearchStream.DebouncePending | recipe-app/src/app/pages/home/home.component.ts:363 | an edit at 0 ms followed by one at 400 ms: nothing is emitted at 100 ms, and the first text is emitted at 300 ms |
| SearchStream.DistinctAfter | recipe-app/src/app/pages/home/home.component.ts:364 | `distinctUntilChanged()`: no two neighbours equal, the first differs from the previously passed value, and the last input value is the last output unless it repeats that value |
| SearchStream.DistinctMembers | recipe-app/src/app/pages/home/home.component.ts:364 | every output value is an input value, and every input value appears in the output unless it equals `prev` |
| SearchStream.DistinctSnoc | recipe-app/src/app/pages/home/home.component.ts:364 | one more input value is let through exactly when it differs from the last value let through so far (or from `prev` when nothing has passed), and the earlier output is unchanged |
| SearchStream.DistinctExample | recipe-app/src/app/pages/home/home.component.ts:364 | `a, a, b, a, b` passes as `a, b, a, b`: only the immediate repeat is dropped |
| SearchStream.DistinctKeepsNoRepeats | recipe-app/src/app/pages/home/home.component.ts:364 | a stream without neighbouring repeats passes through unchanged |
| SearchStream.DistinctIdempotent | recipe-app/src/app/pages/home/home.component.ts:364 | applying the operator twice is applying it once |
| SearchStream.DispatchedEndsWithLatest | recipe-app/src/app/pages/home/home.component.ts:362-366 | after 300 ms of quiet the last value dispatched is the final text, and no value is dispatched twice in a row |
| Home.ErrorFor | recipe-app/src/app/pages/home/home.component.ts:424-498 | the failure message of each load, the four literals of lines 425, 456, 475 and 494, none of them empty |
| Home.Begin | recipe-app/src/app/pages/home/home.component.ts:412-416 | entering a load: `loading` on, `error` cleared, `isSearching` exactly for a search, `selectedCategory` `''`, `'popular'` or the category; recipes and query untouched |
| Home.Complete | recipe-app/src/app/pages/home/home.component.ts:418-430 | a delivery replaces `recipes` and a failure sets the load's non-empty message while keeping `recipes`; `loading` off; a search clears `isSearching`, other loads leave it |
| Home.Fetch | recipe-app/src/app/pages/home/home.component.ts:469-479 | of the four service calls only the popular one can fail, and only when its request fails |
| Home.RunOutcome | recipe-app/src/app/pages/home/home.component.ts:444-499 | after any complete load, the page is not loading or searching, the category is the load's, and an error shows exactly for a failed popular load |
| Home.RunShowsOneBlock | recipe-app/src/app/pages/home/home.component.ts:82-112 | after a load exactly one of the error, grid and "No recipes found" blocks is shown, and no spinner |
| Home.OnQueryParams | recipe-app/src/app/pages/home/home.component.ts:380-392 | a truthy `search` wins and sets `searchQuery`; otherwise `'popular'` loads popular and another truthy category loads it; with neither, nothing changes and nothing is fetched |
| Home.TitleAfterRoute | recipe-app/src/app/pages/home/home.component.ts:516-526 | the title once a routed load has finished: "Popular Recipes", "<c> Recipes", or "Discover Recipes" after a search |
| Home.TitleWhileSearching | recipe-app/src/app/pages/home/home.component.ts:516-518 | while a routed search runs, the title names the search text |
| Home.OnSearch | recipe-app/src/app/pages/home/home.component.ts:404-410 | navigates exactly when the box is not blank, and then to exactly `{ search: searchQuery.trim() }` |
| Home.SubmitSearchRoundTrip | recipe-app/src/app/pages/home/home.component.ts:404-410 | submitting the box starts a search for the trimmed text and puts that text in the box |
| Home.SelectCategory | recipe-app/src/app/pages/home/home.component.ts:501-505 | navigation carries `category` and no `search` parameter |
| Home.SelectCategoryRoundTrip | recipe-app/src/app/pages/home/home.component.ts:380-392 | picking `'popular'` loads popular, another non-empty name loads that category, an empty name loads nothing |
| Home.ClearSearch | recipe-app/src/app/pages/home/home.component.ts:507-510 | empties the box and navigates with no parameters |
| Home.ClearSearchFetchesNothing | recipe-app/src/app/pages/home/home.component.ts:507-510 | the bare route starts no load, so the recipes on screen stay |
| Home.OnDebounced | recipe-app/src/app/pages/home/home.component.ts:366-371 | a non-blank value searches for the untrimmed value; a blank one reloads random recipes |
| Home.TypingEndsWithLatest | recipe-app/src/app/pages/home/home.component.ts:361-372 | once typing stops for 300 ms, the last load the box starts is the one for its final text |
| Home.Init | recipe-app/src/app/pages/home/home.component.ts:375-377 | start-up starts a random load with an empty page |
| Home.InitTitle | recipe-app/src/app/pages/home/home.component.ts:375-377 | after the start-up load the title is "Discover Recipes" |
| Home.CategoriesArrived | recipe-app/src/app/pages/home/home.component.ts:433-442 | a delivered list replaces the categories; a failure changes nothing |
| Home.CategoriesNeverShowError | recipe-app/src/app/pages/home/home.component.ts:433-442 | a failing categories request never sets the error or touches the recipes |
| RecipeDetail.Pick | recipe-app/src/app/pages/recipe-detail/recipe-detail.component.ts:575-577 | `Math.floor(Math.random() * n)` lies in `0..n-1` |
| RecipeDetail.MockRestaurants | recipe-app/src/app/pages/recipe-detail/recipe-detail.component.ts:572-579 | exactly 8 stores; store i has name i, address i and specialties i; rating 4 or 5; distance "k km" with k in 1..5; price `$`, `$$` or `$$$` |
| RecipeDetail.EveryStoreVariantOccurs | recipe-app/src/app/pages/recipe-detail/recipe-detail.component.ts:575-577 | every rating, distance and price in range is produced by some draws |
| RecipeDetail.OnRouteParams | recipe-app/src/app/pages/recipe-detail/recipe-detail.component.ts:508-519 | a load starts exactly when `id` is truthy, with `loading` on and `error` cleared; otherwise nothing changes |
| RecipeDetail.RecipeArrived | recipe-app/src/app/pages/recipe-detail/recipe-detail.component.ts:521-535 | a recipe is stored together with the stores `generateMockRestaurants` builds from the draws; `null` gives "Recipe not found"; an error gives the load-failure message; `loading` off; the old recipe is kept when none arrives |
| RecipeDetail.LoadByIdOutcome | recipe-app/src/app/pages/recipe-detail/recipe-detail.component.ts:517-535 | the load-failure message is unreachable; content shows exactly when the reply has a first meal, which is then the parsed first meal; otherwise "Recipe not found" |

## Left out

- HTTP, URLs and `encodeURIComponent`: each request is replaced by the reply it receives.
- `shareReplay(1)` caching: popular recipes and categories are modelled as one reply each. Being fetched only once is a subscription property outside this model.
- The unused `requests` array in `getRandomRecipes`: it is never subscribed, so it has no effect.
- rxjs scheduling, `takeUntil`/`ngOnDestroy` teardown and overlapping requests. Each load runs to completion before the next begins, so the race between the start-up random load and a routed load is not modelled.
- The router: navigation is modelled as the parameter map it produces, which is then fed to the query-parameter handler. Angular's skipping of navigation to the current URL is not modelled.
- `Math.random()`: draws are reals in `[0, 1)`, and floating-point rounding of `x * n` is abstracted away.
- Text.IsWhitespace: this is the ECMAScript whitespace and line-terminator set as a fixed set of characters. Unicode categories are not consulted.
- Strings: code points are not distinguished from UTF-16 units.
- Non-string field values in a raw meal are not modelled. Every field is a string or `null`.
- UI and DOM: templates, styles, `console.error` logging, `trackByRecipeId`, `goBack`, `scrollToIngredients`, the not-found page, route configuration and the application shell.
- Keystroke times are read as non-decreasing, as events arrive. A list with a later keystroke stamped earlier than its predecessor has no counterpart in the source and is not excluded.
- `onSearchInput`: modelled only as the sequence of keystrokes fed to the stream.
- The header's `onSearch`: it is identical to the home page's `onSearch`, which `Home.OnSearch` models.
- Home.SectionTitle has no contract of its own. Its priority order is stated through `Home.TitleAfterRoute` and `Home.TitleWhileSearching`.
- `distinctUntilChanged` compares raw strings, as the code does. Two values that differ only in surrounding whitespace both pass.
- After a search completes, the success handler clears `isSearching`. The title then reads "Discover Recipes" while the results are shown. `Home.TitleAfterRoute` states this as the code's behaviour.
- RecipeCard.EllipsisIffMore: the "only if" direction requires that no shown name ends in `.`. With four or fewer ingredients, a last name such as `"Salt..."` also makes the preview end in `"..."`.
- RecipeCard.TagsRebuildField: holds only for fields with at most three comma pieces, each already trimmed. Other fields lose pieces or whitespace, as the code intends.
- RecipeService.ParseToMealRoundTrip: covers recipes with at most twenty well-formed ingredients, which are the only ones `parseRecipe` produces.
