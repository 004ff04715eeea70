/** The paginator: the page count of `updatePagination` and `changePage`, the slice that
    `displayCards` shows, the state of the pagination controls, and page navigation. */
module Paginator {

  /** `cardsPerPage`. */
  const CardsPerPage: nat := 20

  function Min(a: int, b: int): int {
    if a <= b then a else b
  }

  /** `Math.ceil(count / cardsPerPage)`: zero pages when there is nothing to show. */
  function TotalPages(count: nat): (pages: nat)
    ensures count <= pages * CardsPerPage
    ensures pages > 0 ==> (pages - 1) * CardsPerPage < count
    ensures pages == 0 <==> count == 0
  {
    (count + CardsPerPage - 1) / CardsPerPage
  }

  /** Where `Array.prototype.slice` puts a bound: a negative one counts from the end, and both
      are clamped to the array. */
  function SliceBound(rel: int, len: nat): nat {
    if rel < 0 then (if len + rel < 0 then 0 else len + rel)
    else if rel > len then len
    else rel
  }

  /** `s.slice(start, end)`. */
  function JsSlice<T>(s: seq<T>, start: int, end: int): seq<T> {
    var from := SliceBound(start, |s|);
    var to := SliceBound(end, |s|);
    if from < to then s[from..to] else []
  }

  /** The cards `displayCards` puts on the screen for `page` (pages count from 1). */
  function PageItems<T>(filtered: seq<T>, page: int): (items: seq<T>)
    ensures |items| <= CardsPerPage
    ensures filtered == [] ==> items == []
    ensures page >= 1 ==>
      items == filtered[Min((page - 1) * CardsPerPage, |filtered|)..Min(page * CardsPerPage, |filtered|)]
  {
    if |filtered| == 0 then []
    else
      var startIndex := (page - 1) * CardsPerPage;
      var endIndex := startIndex + CardsPerPage;
      JsSlice(filtered, startIndex, endIndex)
  }

  /** Every page in `[1, TotalPages]` holds `min(20, count - (page - 1) * 20)` cards, never none. */
  lemma PageSize<T>(filtered: seq<T>, page: int)
    requires 1 <= page <= TotalPages(|filtered|)
    ensures |PageItems(filtered, page)| == Min(CardsPerPage, |filtered| - (page - 1) * CardsPerPage)
    ensures |PageItems(filtered, page)| > 0
  {
  }

  /** The cards of pages 1 to `k`, one page after the other. */
  ghost function PagesUpTo<T>(filtered: seq<T>, k: nat): seq<T> {
    if k == 0 then [] else PagesUpTo(filtered, k - 1) + PageItems(filtered, k)
  }

  lemma {:induction false} PagesUpToIsPrefix<T>(filtered: seq<T>, k: nat)
    ensures PagesUpTo(filtered, k) == filtered[..Min(k * CardsPerPage, |filtered|)]
  {
    if k > 0 {
      PagesUpToIsPrefix(filtered, k - 1);
      var a := Min((k - 1) * CardsPerPage, |filtered|);
      var b := Min(k * CardsPerPage, |filtered|);
      assert filtered[..a] + filtered[a..b] == filtered[..b];
    }
  }

  /** The pages partition the filtered cards: read one after the other, pages 1 to `TotalPages`
      give back every filtered card once, in order. */
  lemma PagesPartition<T>(filtered: seq<T>)
    ensures PagesUpTo(filtered, TotalPages(|filtered|)) == filtered
  {
    PagesUpToIsPrefix(filtered, TotalPages(|filtered|));
  }

  /** Card `i` of the filtered list is shown on page `i / 20 + 1`, at position `i % 20`. */
  lemma CardOnItsPage<T>(filtered: seq<T>, i: nat)
    requires i < |filtered|
    ensures 1 <= i / CardsPerPage + 1 <= TotalPages(|filtered|)
    ensures i % CardsPerPage < |PageItems(filtered, i / CardsPerPage + 1)|
    ensures PageItems(filtered, i / CardsPerPage + 1)[i % CardsPerPage] == filtered[i]
  {
  }

  // ---------------------------------------------------------------------------------------
  // Navigation and the pagination controls

  /** The page the current page is kept in: from 1 to the page count, or 1 when there are no
      pages at all. */
  predicate PageInRange(page: int, count: nat) {
    1 <= page && (page <= TotalPages(count) || page == 1)
  }

  /** The page `changePage(direction)` moves to: the requested page when it exists, otherwise
      the current one. */
  function NextPage(page: int, count: nat, direction: int): int {
    var newPage := page + direction;
    if 1 <= newPage <= TotalPages(count) then newPage else page
  }

  /** Navigation never leaves the range of valid pages. */
  lemma NavigationStaysInRange(page: int, count: nat, direction: int)
    requires PageInRange(page, count)
    ensures PageInRange(NextPage(page, count, direction), count)
    ensures NextPage(page, count, direction) == page || NextPage(page, count, direction) == page + direction
  {
  }

  /** With nothing filtered there are no pages, and every navigation request is refused. */
  lemma EmptyResultRefusesNavigation(page: int, direction: int)
    ensures TotalPages(0) == 0
    ensures NextPage(page, 0, direction) == page
  {
  }

  /** The state `updatePagination` gives the controls. */
  datatype Pagination = Pagination(
    currentPage: int,
    totalPages: nat,
    prevDisabled: bool,
    nextDisabled: bool,
    hidden: bool)

  function PaginationFor(page: int, count: nat): Pagination {
    var totalPages := TotalPages(count);
    Pagination(page, totalPages, page <= 1, page >= totalPages, totalPages <= 1)
  }

  /** A button is disabled exactly when pressing it would be refused, so the keyboard handler's
      check of the disabled flag only repeats the check `changePage` makes itself; when the
      controls are hidden both buttons are disabled. */
  lemma ControlsMatchNavigation(page: int, count: nat)
    requires PageInRange(page, count)
    ensures PaginationFor(page, count).prevDisabled <==> NextPage(page, count, -1) == page
    ensures PaginationFor(page, count).nextDisabled <==> NextPage(page, count, 1) == page
    ensures PaginationFor(page, count).hidden ==>
      PaginationFor(page, count).prevDisabled && PaginationFor(page, count).nextDisabled
  {
  }
}
