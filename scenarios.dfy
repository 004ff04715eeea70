/** A worked example of the viewer: a walk through the pages of a 45-card list. */
module Scenarios {
  import opened Cards
  import opened FilterEngine
  import opened Paginator
  import opened Catalogue

  /** Forty-five cards and no filter: three pages of 20, 20 and 5 cards; moving past the third
      page is refused. */
  method FortyFiveCards(cards: seq<Card>)
    requires |cards| == 45
  {
    var viewer := new Viewer();
    var noFilter := Criteria("", "", "", "");
    var _, _ := viewer.LoadCards(Fetched(Some(cards)), noFilter);
    UnconstrainedKeepsAll(cards, noFilter);
    assert viewer.filteredCards == cards;
    assert TotalPages(45) == 3;
    assert |viewer.View().visibleCards| == 20;
    viewer.ChangePage(1);
    viewer.ChangePage(1);
    assert viewer.currentPage == 3;
    assert |viewer.View().visibleCards| == 5;
    viewer.ChangePage(1);
    assert viewer.currentPage == 3;
    viewer.ChangePage(-3);
    assert viewer.currentPage == 3;
  }
}
