/** The sketch's fixed catalogue of seven colour schemes (sketch.js, the
    `palettes` table built in `setup`). */
module Palettes {

  /** An opaque RGB colour with 8-bit channels; p5's `color(g)` is the grey
      `Rgb(g, g, g)`. */
  datatype Rgb = Rgb(r: int, g: int, b: int)

  predicate IsChannelColour(c: Rgb) {
    0 <= c.r <= 255 && 0 <= c.g <= 255 && 0 <= c.b <= 255
  }

  /** A background colour and the colour of points and lines drawn on it. */
  datatype Palette = Palette(bg: Rgb, line: Rgb)

  const Yellow := Rgb(242, 212, 92)
  const Green := Rgb(0, 175, 63)
  const Blue := Rgb(0, 0, 220)
  const Black := Rgb(0, 0, 0)
  const White := Rgb(255, 255, 255)

  /** The catalogue, in the order the number keys select it. */
  const Catalog: seq<Palette> := [
    Palette(Yellow, Black),
    Palette(Yellow, Green),
    Palette(Green, Yellow),
    Palette(Green, White),
    Palette(Blue, White),
    Palette(White, Black),
    Palette(Black, White)
  ]

  /** The two catalogue entries split mode uses for the left and right halves. */
  const LeftIndex := 0
  const RightIndex := 3

  /** The palette of a node's half in split mode: entry 0 on the left,
      entry 3 on the right. */
  function SidePalette(isLeft: bool): Palette {
    if isLeft then Palette(Yellow, Black) else Palette(Green, White)
  }

  /** The side palettes are the catalogue's entries `LeftIndex` and
      `RightIndex`, and only the left half uses the left one. */
  lemma SidePaletteSpec(isLeft: bool)
    ensures SidePalette(isLeft) == Catalog[if isLeft then LeftIndex else RightIndex]
    ensures SidePalette(isLeft) in Catalog
    ensures SidePalette(isLeft) == Catalog[LeftIndex] <==> isLeft
  {
  }

  /** The catalogue has seven entries, all with valid 8-bit channels, and the
      two split-mode palettes draw in different line colours. */
  lemma CatalogWellFormed()
    ensures |Catalog| == 7
    ensures forall i :: 0 <= i < |Catalog| ==> IsChannelColour(Catalog[i].bg) && IsChannelColour(Catalog[i].line)
    ensures SidePalette(true).line == Black && SidePalette(false).line == White
  {
  }
}
