/** The tile colours of src/Tile.ts (the `ETile` enum). */
module Tiles {

  /** `Empty` is a free tile; every other value is a ball of that colour. */
  datatype Color = Empty | Red | Orange | Yellow | Green | Blue | Purple | White

  /**
   * The non-empty colours in declaration order: the keys of `ETile` with
   * `EMPTY` filtered out, from which a random ball colour is drawn.
   */
  const Palette: seq<Color> := [Red, Orange, Yellow, Green, Blue, Purple, White]

  lemma PaletteIsTheBallColours(c: Color)
    ensures c in Palette <==> c != Empty
  {
  }
}
