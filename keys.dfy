/** The key handler (`keyPressed` in sketch.js) as a small state machine over
    the selected palette and the split flag, with an export request as its
    output. */
module Keys {
  import opened Palettes

  /** The part of the sketch's state the keyboard changes. */
  datatype Ui = Ui(palette: nat, split: bool)

  /** The pixel size of a requested export. */
  datatype Size = Size(w: int, h: int)

  datatype Option<T> = None | Some(value: T)

  /** The size `S` exports at: A4 at 300 dpi. */
  const ExportSize := Size(2481, 3507)

  predicate IsPaletteKey(key: char) {
    '1' <= key <= '7'
  }

  predicate IsExportKey(key: char) {
    key == 'S' || key == 's'
  }

  predicate IsSplitKey(key: char) {
    key == 'M' || key == 'm'
  }

  /** `keyPressed`: the three tests of the source in order, each acting on the
      state the previous one left. */
  function OnKey(ui: Ui, key: char): (Ui, Option<Size>) {
    var palette := if IsPaletteKey(key) then (key as int) - ('1' as int) else ui.palette;
    var request := if IsExportKey(key) then Some(ExportSize) else None;
    var split := if IsSplitKey(key) then !ui.split else ui.split;
    (Ui(palette, split), request)
  }

  /** A digit key 1 to 7 selects catalogue entry digit - 1, which is always a
      valid index, and changes nothing else. */
  lemma DigitSelectsPalette(ui: Ui, key: char)
    requires IsPaletteKey(key)
    ensures OnKey(ui, key) == (Ui((key as int) - ('1' as int), ui.split), None)
    ensures OnKey(ui, key).0.palette < |Catalog|
  {
  }

  /** M or m flips split mode and nothing else, so two presses restore the
      state. */
  lemma SplitKeyToggles(ui: Ui, key: char, key2: char)
    requires IsSplitKey(key) && IsSplitKey(key2)
    ensures OnKey(ui, key) == (Ui(ui.palette, !ui.split), None)
    ensures OnKey(OnKey(ui, key).0, key2).0 == ui
  {
  }

  /** S or s requests an export of exactly 2481 x 3507 and leaves palette and
      mode alone. */
  lemma ExportKeyRequests(ui: Ui, key: char)
    requires IsExportKey(key)
    ensures OnKey(ui, key) == (ui, Some(Size(2481, 3507)))
  {
  }

  /** Any other key changes nothing and requests nothing. */
  lemma OtherKeyIgnored(ui: Ui, key: char)
    requires !IsPaletteKey(key) && !IsExportKey(key) && !IsSplitKey(key)
    ensures OnKey(ui, key) == (ui, None)
  {
  }

  /** Whatever the key, a valid palette index stays valid. */
  lemma PaletteStaysValid(ui: Ui, key: char)
    requires ui.palette < |Catalog|
    ensures OnKey(ui, key).0.palette < |Catalog|
  {
  }
}
