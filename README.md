# YuGiOh card catalogue viewer — filter, paginate and facet core

The viewer loads a fixed list of trading cards once and keeps three pieces of global state:
the whole list (`allCards`), the cards that pass the current filters (`filteredCards`) and the
page being shown (`currentPage`, 20 cards a page). This project models that state machine in
Dafny and proves what it promises:

- **Filter engine** (`FilterEngine`, with the string helpers of `Text`). The search box is
  lowercased and trimmed. A card matches when the term is empty or occurs in its lowercased name
  or in its lowercased description. The type, race and archetype drop-downs each match when
  empty, and otherwise only on exact equality. The filter keeps the matching cards in their
  original order.
- **Paginator** (`Paginator`). The page count is `ceil(n / 20)`. `displayCards` shows the
  clamped slice for a page. `updatePagination` sets the state of the controls. `changePage` moves
  only to a page that exists.
- **Facet extractor** (`Facets`). `populateFilters` gathers the distinct non-empty races and
  archetypes in one pass.
- **Placeholder colour** (`Placeholder`). `getPlaceholderColor` looks up a fixed table and falls
  back to a default.
- **Viewer** (`Catalogue.Viewer`). A class holding the global state. Its methods follow
  `loadCards`, `populateFilters`, `applyFilters`, `clearSearch` and `changePage`. Its invariant
  says that the filtered list is the filter of the whole list and that the current page exists,
  or is 1 when there are no pages.

The fetch of `card.json` is a parameter (`FetchResult`). The values of the search box and the
drop-downs are a parameter as well (`Criteria`).

`Math.ceil(0 / 20)` is 0 (script.js:237, 251), so an empty result has no pages:
`TotalPages(0) == 0`, and every page move on it is refused.

## Model

| member | source | states |
|---|---|---|
| `Text.ToLowerSpec` | script.js:129 | `ToLower` (`toLowerCase`): lowercasing leaves no upper-case ASCII letter, maps each upper-case letter to its lower-case partner and keeps every other character |
| `Text.ToLowerIdempotent` | script.js:129 | `ToLower`: lowercasing an already lowercased string changes nothing |
| `Text.TrimStartSpec` | script.js:129 | `TrimStart` (the leading half of `trim`): the result is a suffix of the input, everything dropped is whitespace, and it does not start with whitespace |
| `Text.TrimEndSpec` | script.js:129 | `TrimEnd` (the trailing half of `trim`): the result is a prefix of the input, everything dropped is whitespace, and it does not end with whitespace |
| `Text.TrimSpec` | script.js:129 | `Trim` (`trim`): leaves an infix with only whitespace around it that neither starts nor ends with whitespace |
| `Text.TrimUnique` | script.js:129 | `Trim`: any infix meeting those conditions is exactly what `trim` returns |
| `Text.IncludesIsInfix` | script.js:140-141 | `Includes` (`includes`): holds iff the needle occurs at some position of the haystack (both directions) |
| `FilterEngine.SearchTermSpec` | script.js:129 | `SearchTerm` (`searchInput.value.toLowerCase().trim()`): the search term has no upper-case letter and is the lowercased search box with only the surrounding whitespace removed |
| `FilterEngine.SearchTermIgnoresCase` | script.js:129 | `SearchTerm`: lowercasing the search box beforehand does not change the search term |
| `FilterEngine.Filter` | script.js:138-148 | the filtered list is no longer than the input, and every card in it comes from the input and matches |
| `FilterEngine.MatchesSearchIffOccurs` | script.js:139-141 | `MatchesSearch` (the search clause of the filter predicate): it holds iff the term is empty, or occurs in the lowercased name, or the card has a description in whose lowercased form it occurs |
| `FilterEngine.MatchesIffAllActiveSatisfied` | script.js:139-147 | `Matches` (the predicate handed to `allCards.filter`): a card passes iff it satisfies every non-empty criterion, each checked on its own (AND semantics, both directions) |
| `FilterEngine.UnconstrainedKeepsAll` | script.js:139-145 | an empty or whitespace-only search box and three empty drop-downs keep every card |
| `FilterEngine.FilterMembership` | script.js:138-148 | a card is in the filtered list iff it is in the input and matches |
| `FilterEngine.FilterIdempotent` | script.js:138-148 | filtering the filtered list again with the same criteria returns it unchanged |
| `FilterEngine.FilterSelectsMatchingPositions` | script.js:138-148 | the filtered list is the input read at the strictly increasing list of exactly the matching positions, so it is a subsequence that keeps the original order |
| `Paginator.TotalPages` | script.js:237 | the page count is the ceiling of count / 20, and it is 0 exactly when the count is 0 |
| `Paginator.PageItems` | script.js:169-180 | `PageItems` (the `slice` of `displayCards`, via `JsSlice`): page `p >= 1` shows `filtered[(p-1)*20 .. min(p*20, n)]` clamped to the list, at most 20 cards, and none when the list is empty |
| `Paginator.PageSize` | script.js:178-180 | every page from 1 to the page count holds `min(20, n - (p-1)*20)` cards, and never none |
| `Paginator.PagesPartition` | script.js:178-180 | pages 1 to the page count, read one after the other, give back the filtered list exactly |
| `Paginator.CardOnItsPage` | script.js:178-180 | filtered card `i` is shown on page `i/20 + 1`, at position `i % 20`, and that page exists |
| `Paginator.NavigationStaysInRange` | script.js:250-255 | `NextPage` (`changePage`): a page move keeps the page valid and either stays put or moves by exactly the requested amount |
| `Paginator.EmptyResultRefusesNavigation` | script.js:251-254 | with no filtered card there are no pages, and every page move is refused |
| `Paginator.ControlsMatchNavigation` | script.js:236-247 | `PaginationFor` (`updatePagination`): the previous (next) button is disabled exactly when moving back (forward) one page would be refused; hidden controls have both buttons disabled |
| `Facets.ExtractFacets` | script.js:57-64 | the race and archetype lists have no duplicates and hold exactly the non-empty values of the cards; missing or empty values are never added |
| `Placeholder.PlaceholderColor` | script.js:221-232 | a type in the table gets its gradient, any other type (or none) gets the default, and the result is one of the four gradients |
| `Catalogue.Viewer.constructor` | script.js:2-4 | the viewer starts with no cards, no filtered cards and page 1 |
| `Catalogue.Viewer.LoadCards` | script.js:32-54 | on success the `data` cards (none when `data` is missing) become the whole list, each drop-down gains the distinct non-empty facet values of it, each once, and the filters are applied; on failure only the retry flag changes |
| `Catalogue.Viewer.PopulateFilters` | script.js:57-81 | appends to each drop-down the distinct non-empty facet values of the whole list |
| `Catalogue.Viewer.ApplyFilters` | script.js:128-159 | the filtered list becomes the filter of the whole list, the page goes back to 1, and the invariant holds |
| `Catalogue.Viewer.ClearSearch` | script.js:162-166 | the filters are applied with an empty search box |
| `Catalogue.Viewer.ChangePage` | script.js:250-262 | the page moves by the direction iff the new page lies in `[1, TotalPages]`, otherwise nothing changes; the filtered list is untouched and the invariant is kept |
| `Catalogue.Viewer.View` | script.js:169-180 | the visible cards are a run of at most 20 consecutive filtered cards starting at `(page-1)*20`, and the "no results" panel shows exactly when no card is visible and there are no pages |

## Left out

- Rendering: `createCardHTML`, `showCardModal`, `closeCardModal`, the element lookups, the
  option elements and the scroll to the top (script.js:8-23, 182-218, 260, 264-333). These are
  HTML building and display side effects. The model keeps the appended option values and the
  data the page shows (`Viewer.View`).
- `debounce` (script.js:115-125). Timer scheduling cannot be expressed in a sequential model. A
  debounced search is modelled as the single `ApplyFilters` call it ends in.
- The fetch and JSON parsing inside `loadCards` (script.js:34-35). They are a `FetchResult`
  parameter. An exception thrown by `populateFilters` or `applyFilters` after `allCards` has been
  assigned is not modelled.
- The event listeners for keyboard, modal, window errors and image errors (script.js:84-112,
  336-354). The keyboard handler checks the disabled flags before `changePage`.
  `ControlsMatchNavigation` shows that this check agrees with the one `changePage` makes itself.
- The `server.py` static file server and its cache headers, and the `card.py` download script.
  server.py is a thin wrapper over a web framework that is not part of this model; card.py is an
  HTTP download and a file write.
- Card fields used only for display (images, print sets, attack, defence, level, link value).
  They do not affect filtering or pagination.
- A card without a `name` makes `toLowerCase` throw during a non-empty search. The model gives
  every card a name.
- `Text.ToLower`: only the ASCII letters A-Z are lowercased. JavaScript's `toLowerCase` follows
  full Unicode case mapping, which is not modelled.
- `Paginator.TotalPages`: integer ceiling. `Math.ceil` on a floating-point quotient agrees with
  it for every list shorter than 2^53 cards.
- `Facets.ExtractFacets`: the loop keeps first-seen order, as a JavaScript `Set` does, but the
  contract states only distinctness and exact membership, not that order.
- `Placeholder.PlaceholderColor`: a type named after an inherited `Object.prototype` property,
  such as "constructor", would return that property rather than a gradient. This is not modelled.
