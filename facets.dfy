/** The facet extractor of `populateFilters`: the distinct races and archetypes of the loaded
    cards, gathered into two insertion-ordered sets in one pass. */
module Facets {
  import opened Cards

  datatype Facet = Race | Archetype

  function FacetOf(card: Card, f: Facet): Option<string> {
    match f
    case Race => card.race
    case Archetype => card.archetype
  }

  /** One of the first `upTo` cards has `v` as its facet value, and `v` is not empty. */
  ghost predicate IsFacetValue(cards: seq<Card>, upTo: int, f: Facet, v: string) {
    exists i :: 0 <= i < upTo && i < |cards| && Truthy(FacetOf(cards[i], f)) && FacetOf(cards[i], f).value == v
  }

  predicate Distinct(s: seq<string>) {
    forall j, k :: 0 <= j < k < |s| ==> s[j] != s[k]
  }

  /** `set.add(value)` on a JavaScript `Set`, kept as its insertion-ordered list of values. */
  function SetAdd(s: seq<string>, value: string): seq<string> {
    if value in s then s else s + [value]
  }

  /** `if (field) set.add(field)`: only a present, non-empty value is added. */
  function AddIfTruthy(s: seq<string>, field: Option<string>): seq<string> {
    if Truthy(field) then SetAdd(s, field.value) else s
  }

  /** The race set and the archetype set hold no value twice, and each holds exactly the
      non-empty values its facet takes on the cards; a missing or empty value is never added. */
  method ExtractFacets(cards: seq<Card>) returns (races: seq<string>, archetypes: seq<string>)
    ensures Distinct(races) && Distinct(archetypes)
    ensures forall v :: v in races <==> IsFacetValue(cards, |cards|, Race, v)
    ensures forall v :: v in archetypes <==> IsFacetValue(cards, |cards|, Archetype, v)
  {
    races, archetypes := [], [];
    var i := 0;
    while i < |cards|
      invariant 0 <= i <= |cards|
      invariant Distinct(races) && Distinct(archetypes)
      invariant forall v :: v in races <==> IsFacetValue(cards, i, Race, v)
      invariant forall v :: v in archetypes <==> IsFacetValue(cards, i, Archetype, v)
    {
      var card := cards[i];
      races := AddIfTruthy(races, card.race);
      archetypes := AddIfTruthy(archetypes, card.archetype);
      assert FacetOf(card, Race) == card.race && FacetOf(card, Archetype) == card.archetype;
      i := i + 1;
    }
  }
}
