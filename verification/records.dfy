/** The two kinds of record the script reads from the API. A JSON `null` or a
    missing text field is the empty string here, as the script reads both as
    falsy (`m.get('name', '')`, `card.get('name') or ""`, `if url`). */
module Records {
  import opened Wrappers

  /** A record of the members endpoint: `id`, `name`, `japanese_name`, `i_band`. */
  datatype Member = Member(id: int, name: string, japaneseName: string, band: string)

  /** A record of the cards endpoint. `rarity` is `i_rarity` and `member` is
      the owning member's id; either may be absent. The six image fields are
      `art`, `art_trained`, `transparent`, `transparent_trained`, `image` and
      `image_trained`. */
  datatype Card = Card(
    id: int,
    name: string,
    japaneseName: string,
    rarity: Option<int>,
    attribute: string,
    member: Option<int>,
    art: string,
    artTrained: string,
    transparent: string,
    transparentTrained: string,
    image: string,
    imageTrained: string)
}
