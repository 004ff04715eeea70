/** The filter engine of `applyFilters`: the four criteria read from the search box and the three
    drop-downs, the per-card predicate, and the order-keeping selection of the matching cards. */
module FilterEngine {
  import opened Cards
  import opened Text

  /** The raw values of the search box and of the type, race and archetype drop-downs; an empty
      drop-down value stands for "all". */
  datatype Criteria = Criteria(
    searchInput: string,
    selectedType: string,
    selectedRace: string,
    selectedArchetype: string)

  /** The search term: the search box lowercased, then trimmed. */
  function SearchTerm(input: string): string {
    Trim(ToLower(input))
  }

  /** The four values `applyFilters` reads before it filters, the search term already
      normalised. */
  datatype Query = Query(term: string, cardType: string, race: string, archetype: string)

  function ReadQuery(c: Criteria): Query {
    Query(SearchTerm(c.searchInput), c.selectedType, c.selectedRace, c.selectedArchetype)
  }

  /** The search term holds no upper-case letter, and it is the lowercased search box with only
      the surrounding whitespace removed. */
  lemma SearchTermSpec(input: string)
    ensures forall k :: 0 <= k < |SearchTerm(input)| ==> !IsUpperAscii(SearchTerm(input)[k])
    ensures exists lo :: TrimsTo(ToLower(input), lo, SearchTerm(input))
  {
    var lower := ToLower(input);
    TrimSpec(lower);
    var lo :| TrimsTo(lower, lo, SearchTerm(input));
    ToLowerSpec(input);
    assert forall k :: 0 <= k < |SearchTerm(input)| ==> SearchTerm(input)[k] == lower[lo + k];
  }

  /** The search is case-insensitive: lowercasing the search box first changes nothing. */
  lemma SearchTermIgnoresCase(input: string)
    ensures SearchTerm(ToLower(input)) == SearchTerm(input)
  {
    ToLowerIdempotent(input);
  }

  /** The search clause: an empty term matches, otherwise the term must occur in the lowercased
      name or, when the card has a description, in the lowercased description. */
  predicate MatchesSearch(card: Card, term: string) {
    term == []
    || Includes(ToLower(card.name), term)
    || (Truthy(card.desc) && Includes(ToLower(card.desc.value), term))
  }

  /** A drop-down clause: an empty selection matches, otherwise the field must equal it exactly. */
  predicate MatchesSelection(selected: string, field: Option<string>) {
    selected == [] || field == Some(selected)
  }

  /** The predicate handed to `allCards.filter`. */
  predicate Matches(card: Card, q: Query) {
    MatchesSearch(card, q.term)
    && MatchesSelection(q.cardType, card.cardType)
    && MatchesSelection(q.race, card.race)
    && MatchesSelection(q.archetype, card.archetype)
  }

  /** `allCards.filter(...)`: the matching cards, in their original order. */
  function Filter(cards: seq<Card>, q: Query): (r: seq<Card>)
    ensures |r| <= |cards|
    ensures forall k :: 0 <= k < |r| ==> r[k] in cards && Matches(r[k], q)
  {
    if cards == [] then []
    else if Matches(cards[0], q) then [cards[0]] + Filter(cards[1..], q)
    else Filter(cards[1..], q)
  }

  // ---------------------------------------------------------------------------------------
  // Reference definition: the active constraints, each checked on its own

  /** One constraint that a non-empty criterion imposes. */
  datatype Constraint =
    | TextOccurs(term: string)
    | TypeIs(cardType: string)
    | RaceIs(race: string)
    | ArchetypeIs(archetype: string)

  /** The constraints of the criteria that are not empty. */
  function ActiveConstraints(q: Query): seq<Constraint> {
    (if q.term == [] then [] else [TextOccurs(q.term)])
    + (if q.cardType == [] then [] else [TypeIs(q.cardType)])
    + (if q.race == [] then [] else [RaceIs(q.race)])
    + (if q.archetype == [] then [] else [ArchetypeIs(q.archetype)])
  }

  /** What one constraint demands, stated with substring occurrence rather than the search. */
  ghost predicate Satisfies(card: Card, k: Constraint) {
    match k
    case TextOccurs(term) =>
      IsInfix(term, ToLower(card.name)) || (card.desc.Some? && IsInfix(term, ToLower(card.desc.value)))
    case TypeIs(t) => card.cardType == Some(t)
    case RaceIs(r) => card.race == Some(r)
    case ArchetypeIs(a) => card.archetype == Some(a)
  }

  /** The search clause, read as substring occurrence. */
  lemma MatchesSearchIffOccurs(card: Card, term: string)
    ensures MatchesSearch(card, term) <==> term == [] || Satisfies(card, TextOccurs(term))
  {
    IncludesIsInfix(ToLower(card.name), term);
    if card.desc.Some? {
      IncludesIsInfix(ToLower(card.desc.value), term);
      assert card.desc.value == [] && term != [] ==> !OccursAt(term, ToLower(card.desc.value), 0);
    }
  }

  /** A card passes the filter iff it satisfies every active constraint, each independently. */
  lemma MatchesIffAllActiveSatisfied(card: Card, q: Query)
    ensures Matches(card, q) <==> forall k :: k in ActiveConstraints(q) ==> Satisfies(card, k)
  {
    MatchesSearchIffOccurs(card, q.term);
    var active := ActiveConstraints(q);
    assert q.term != [] ==> TextOccurs(q.term) in active;
    assert q.cardType != [] ==> TypeIs(q.cardType) in active;
    assert q.race != [] ==> RaceIs(q.race) in active;
    assert q.archetype != [] ==> ArchetypeIs(q.archetype) in active;
  }

  /** An empty search term (a search box holding only whitespace counts) and three "all"
      drop-downs keep every card. */
  lemma {:induction false} UnconstrainedKeepsAll(cards: seq<Card>, c: Criteria)
    requires SearchTerm(c.searchInput) == []
    requires c.selectedType == [] && c.selectedRace == [] && c.selectedArchetype == []
    ensures Filter(cards, ReadQuery(c)) == cards
  {
    if cards != [] {
      UnconstrainedKeepsAll(cards[1..], c);
      assert Matches(cards[0], ReadQuery(c));
    }
  }

  // ---------------------------------------------------------------------------------------
  // The result is exactly the matching cards, kept in order

  /** A card is in the result iff it is in the input and matches. */
  lemma {:induction false} FilterMembership(cards: seq<Card>, q: Query, x: Card)
    ensures x in Filter(cards, q) <==> x in cards && Matches(x, q)
  {
    if cards != [] {
      FilterMembership(cards[1..], q, x);
      assert cards == [cards[0]] + cards[1..];
    }
  }

  /** Filtering the result again with the same criteria changes nothing. */
  lemma {:induction false} FilterIdempotent(cards: seq<Card>, q: Query)
    ensures Filter(Filter(cards, q), q) == Filter(cards, q)
  {
    if cards != [] {
      FilterIdempotent(cards[1..], q);
      if Matches(cards[0], q) {
        assert ([cards[0]] + Filter(cards[1..], q))[1..] == Filter(cards[1..], q);
      }
    }
  }

  /** The positions of the matching cards at or after `from`, in increasing order. */
  ghost function MatchingPositions(cards: seq<Card>, q: Query, from: nat): seq<nat>
    requires from <= |cards|
    decreases |cards| - from
  {
    if from == |cards| then []
    else (if Matches(cards[from], q) then [from] else []) + MatchingPositions(cards, q, from + 1)
  }

  /** `sub` is `sup` read at the strictly increasing positions `idx`. */
  ghost predicate SelectsInOrder(sub: seq<Card>, sup: seq<Card>, idx: seq<nat>) {
    |idx| == |sub|
    && (forall k :: 0 <= k < |idx| ==> idx[k] < |sup| && sub[k] == sup[idx[k]])
    && (forall k, l :: 0 <= k < l < |idx| ==> idx[k] < idx[l])
  }

  /** The positions lie in `[from, |cards|)`, increase strictly, and are exactly those of the
      matching cards. */
  lemma {:induction false} MatchingPositionsSpec(cards: seq<Card>, q: Query, from: nat)
    requires from <= |cards|
    ensures forall k :: 0 <= k < |MatchingPositions(cards, q, from)| ==>
      from <= MatchingPositions(cards, q, from)[k] < |cards|
    ensures forall k, l :: 0 <= k < l < |MatchingPositions(cards, q, from)| ==>
      MatchingPositions(cards, q, from)[k] < MatchingPositions(cards, q, from)[l]
    ensures forall i :: from <= i < |cards| ==>
      (i in MatchingPositions(cards, q, from) <==> Matches(cards[i], q))
    decreases |cards| - from
  {
    if from < |cards| {
      MatchingPositionsSpec(cards, q, from + 1);
    }
  }

  /** The filtered suffix from `from` is the input read at those positions. */
  lemma {:induction false} FilterReadsMatchingPositions(cards: seq<Card>, q: Query, from: nat)
    requires from <= |cards|
    ensures |Filter(cards[from..], q)| == |MatchingPositions(cards, q, from)|
    ensures forall k :: 0 <= k < |MatchingPositions(cards, q, from)| ==>
      MatchingPositions(cards, q, from)[k] < |cards|
      && Filter(cards[from..], q)[k] == cards[MatchingPositions(cards, q, from)[k]]
    decreases |cards| - from
  {
    if from < |cards| {
      FilterReadsMatchingPositions(cards, q, from + 1);
      assert cards[from..][1..] == cards[from + 1..];
      assert cards[from..][0] == cards[from];
      var rest := Filter(cards[from + 1..], q);
      var positions := MatchingPositions(cards, q, from + 1);
      if Matches(cards[from], q) {
        assert Filter(cards[from..], q) == [cards[from]] + rest;
        assert MatchingPositions(cards, q, from) == [from] + positions;
      } else {
        assert Filter(cards[from..], q) == rest;
        assert MatchingPositions(cards, q, from) == positions;
      }
    }
  }

  /** Order preservation: the result is the input read at the increasing list of the positions
      whose card matches, every such position once. Duplicates in the input are kept. */
  lemma FilterSelectsMatchingPositions(cards: seq<Card>, q: Query)
    ensures SelectsInOrder(Filter(cards, q), cards, MatchingPositions(cards, q, 0))
    ensures forall i :: 0 <= i < |cards| ==> (i in MatchingPositions(cards, q, 0) <==> Matches(cards[i], q))
  {
    MatchingPositionsSpec(cards, q, 0);
    FilterReadsMatchingPositions(cards, q, 0);
    assert cards[0..] == cards;
  }
}
