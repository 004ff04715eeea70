/** `getPlaceholderColor`: the background shown behind a card whose image has not loaded. */
module Placeholder {
  import opened Cards

  const Peach := "linear-gradient(135deg, #ffecd2 0%, #fcb69f 100%)"
  const Aqua := "linear-gradient(135deg, #a8edea 0%, #fed6e3 100%)"
  const Rose := "linear-gradient(135deg, #ff9a9e 0%, #fecfef 100%)"
  const DefaultColor := "linear-gradient(135deg, #f093fb 0%, #f5576c 100%)"

  /** The `colors` table, keyed by card type. */
  const Palette: map<string, string> := map[
    "Normal Monster" := Peach,
    "Effect Monster" := Aqua,
    "Spell Card" := Peach,
    "Trap Card" := Rose,
    "Fusion Monster" := Aqua,
    "Synchro Monster" := Peach,
    "XYZ Monster" := Rose,
    "Link Monster" := Aqua]

  /** The property key JavaScript uses for `colors[cardType]`: a missing type becomes the
      string "undefined". */
  function PropertyKey(cardType: Option<string>): string {
    if cardType.Some? then cardType.value else "undefined"
  }

  /** `colors[cardType] || default`. */
  function PlaceholderColor(cardType: Option<string>): (color: string)
    ensures cardType.Some? && cardType.value in Palette ==> color == Palette[cardType.value]
    ensures cardType.None? || cardType.value !in Palette ==> color == DefaultColor
    ensures color in {Peach, Aqua, Rose, DefaultColor}
  {
    var key := PropertyKey(cardType);
    if key in Palette && Palette[key] != "" then Palette[key] else DefaultColor
  }
}
