/** The viewer's global state, `allCards`, `filteredCards` and `currentPage`, and the entry points
    that change it: loading, filling the drop-downs, applying the filters, clearing the search and
    changing page. */
module Catalogue {
  import opened Cards
  import opened FilterEngine
  import opened Paginator
  import opened Facets

  /** The outcome of `fetch('card.json')` and `response.json()`: a failure, or a payload whose
      `data` field may be missing. */
  datatype FetchResult = FetchFailed | Fetched(data: Option<seq<Card>>)

  /** What the page shows: the visible cards, the two counters, the "no results" panel and the
      pagination controls. */
  datatype Screen = Screen(
    visibleCards: seq<Card>,
    totalCount: nat,
    filteredCount: nat,
    noResults: bool,
    pagination: Pagination)

  class Viewer {
    var allCards: seq<Card>
    var filteredCards: seq<Card>
    var currentPage: int
    /** The options appended to the race and archetype drop-downs. */
    var raceOptions: seq<string>
    var archetypeOptions: seq<string>
    /** The loading panel shows the retry message. */
    var loadFailed: bool
    /** The query the filtered list was last computed from. */
    ghost var query: Query

    /** The filtered list is the filter of the whole list, and the current page exists (or is 1
        when there is no page). */
    ghost predicate Valid()
      reads this
    {
      filteredCards == Filter(allCards, query) && PageInRange(currentPage, |filteredCards|)
    }

    constructor ()
      ensures Valid()
      ensures allCards == [] && filteredCards == [] && currentPage == 1
      ensures raceOptions == [] && archetypeOptions == [] && !loadFailed
    {
      allCards := [];
      filteredCards := [];
      currentPage := 1;
      raceOptions := [];
      archetypeOptions := [];
      loadFailed := false;
      query := Query([], [], [], []);
    }

    /** `loadCards`: on success the cards of `data` (none when it is missing) become the whole
        list, the drop-downs are filled and the filters applied; on failure only the retry message
        appears. Returns the race and archetype options it appended. */
    method LoadCards(response: FetchResult, input: Criteria) returns (races: seq<string>, archetypes: seq<string>)
      requires Valid()
      modifies this
      ensures Valid()
      ensures response.FetchFailed? ==>
        loadFailed && allCards == old(allCards) && filteredCards == old(filteredCards)
        && currentPage == old(currentPage) && races == [] && archetypes == []
      ensures response.Fetched? ==>
        allCards == (if response.data.Some? then response.data.value else [])
        && filteredCards == Filter(allCards, ReadQuery(input)) && currentPage == 1
        && loadFailed == old(loadFailed)
      ensures raceOptions == old(raceOptions) + races
      ensures archetypeOptions == old(archetypeOptions) + archetypes
      ensures Distinct(races) && Distinct(archetypes)
      ensures forall v :: v in races <==> response.Fetched? && IsFacetValue(allCards, |allCards|, Race, v)
      ensures forall v :: v in archetypes <==> response.Fetched? && IsFacetValue(allCards, |allCards|, Archetype, v)
    {
      if response.FetchFailed? {
        loadFailed := true;
        return [], [];
      }
      allCards := if response.data.Some? then response.data.value else [];
      races, archetypes := PopulateFilters();
      ApplyFilters(input);
    }

    /** `populateFilters`: appends each distinct race and archetype of the cards, once, to its
        drop-down. */
    method PopulateFilters() returns (races: seq<string>, archetypes: seq<string>)
      modifies this`raceOptions, this`archetypeOptions
      ensures raceOptions == old(raceOptions) + races
      ensures archetypeOptions == old(archetypeOptions) + archetypes
      ensures Distinct(races) && Distinct(archetypes)
      ensures forall v :: v in races <==> IsFacetValue(allCards, |allCards|, Race, v)
      ensures forall v :: v in archetypes <==> IsFacetValue(allCards, |allCards|, Archetype, v)
    {
      races, archetypes := ExtractFacets(allCards);
      raceOptions := raceOptions + races;
      archetypeOptions := archetypeOptions + archetypes;
    }

    /** `applyFilters`: recomputes the filtered list from the whole list and goes back to page 1,
        whatever page was shown before. */
    method ApplyFilters(input: Criteria)
      modifies this`filteredCards, this`currentPage, this`query
      ensures filteredCards == Filter(allCards, ReadQuery(input))
      ensures currentPage == 1
      ensures Valid()
    {
      var q := ReadQuery(input);
      filteredCards := Filter(allCards, q);
      query := q;
      currentPage := 1;
    }

    /** `clearSearch`: empties the search box and applies the filters again. */
    method ClearSearch(input: Criteria)
      modifies this`filteredCards, this`currentPage, this`query
      ensures filteredCards == Filter(allCards, ReadQuery(input.(searchInput := [])))
      ensures currentPage == 1
      ensures Valid()
    {
      ApplyFilters(input.(searchInput := []));
    }

    /** `changePage`: moves by `direction` when the new page exists and otherwise does nothing;
        the filtered list is never touched. */
    method ChangePage(direction: int)
      requires Valid()
      modifies this`currentPage
      ensures Valid()
      ensures 1 <= old(currentPage) + direction <= TotalPages(|filteredCards|) ==>
        currentPage == old(currentPage) + direction
      ensures !(1 <= old(currentPage) + direction <= TotalPages(|filteredCards|)) ==>
        currentPage == old(currentPage)
      ensures currentPage == NextPage(old(currentPage), |filteredCards|, direction)
    {
      var totalPages := TotalPages(|filteredCards|);
      var newPage := currentPage + direction;
      if 1 <= newPage <= totalPages {
        currentPage := newPage;
      }
      NavigationStaysInRange(old(currentPage), |filteredCards|, direction);
    }

    /** What `displayCards` and `updatePagination` show: the cards of the current page, which
        are a run of at most 20 consecutive filtered cards, and the "no results" panel exactly
        when no card is visible. */
    function View(): (s: Screen)
      reads this
      requires Valid()
      ensures |s.visibleCards| <= CardsPerPage
      ensures s.visibleCards ==
        filteredCards[Min((currentPage - 1) * CardsPerPage, |filteredCards|)..Min(currentPage * CardsPerPage, |filteredCards|)]
      ensures s.noResults <==> s.visibleCards == []
      ensures s.noResults <==> s.pagination.totalPages == 0
      ensures s.totalCount == |allCards| && s.filteredCount == |filteredCards|
    {
      var s := Screen(
        PageItems(filteredCards, currentPage),
        |allCards|,
        |filteredCards|,
        |filteredCards| == 0,
        PaginationFor(currentPage, |filteredCards|));
      if filteredCards != [] then PageSize(filteredCards, currentPage); s else s
    }
  }
}
