/** The card record of the catalogue, as the viewer reads it from the `data` array of card.json.
    Only the fields that the filter engine, the facet extractor and the placeholder colour read
    are kept; the fields used only to render a card (images, print sets, stats) are not. */
module Cards {

  datatype Option<+T> = None | Some(value: T)

  /** A card. `name` is always present; the other text fields are optional in the JSON. */
  datatype Card = Card(
    id: int,
    name: string,
    cardType: Option<string>,
    race: Option<string>,
    archetype: Option<string>,
    desc: Option<string>)

  /** JavaScript truthiness of an optional string field: present and not the empty string. */
  predicate Truthy(field: Option<string>) {
    field.Some? && field.value != ""
  }
}
